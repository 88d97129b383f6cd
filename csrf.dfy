/**
 * `CsrfParser`: a scanner fed the tags of an HTML page that remembers the `csrf_token` input
 * of the form whose `action` is the target path. The HTML tokenizer itself is not modelled:
 * the scanner receives the tag events the tokenizer delivers (tag name and attribute pairs,
 * a valueless attribute carrying no value).
 */
module CsrfScan {
  import opened Wrappers

  type Attrs = seq<(string, Option<string>)>

  /** Pair i is the last one named `name`. */
  predicate LastNamed(attrs: Attrs, name: string, i: int)
  {
    0 <= i < |attrs| && attrs[i].0 == name && forall j :: i < j < |attrs| ==> attrs[j].0 != name
  }

  datatype TagEvent =
    | StartTag(tag: string, attrs: Attrs)
    | EndTag(tag: string)

  /** The value of attribute `name`; when it is repeated the last one counts, as with `dict(attrs)`. */
  function Attr(attrs: Attrs, name: string): (r: Option<string>)
    ensures (forall i :: 0 <= i < |attrs| ==> attrs[i].0 != name) ==> r.None?
    ensures forall i :: LastNamed(attrs, name, i) ==> r == attrs[i].1
  {
    if attrs == [] then None
    else if attrs[|attrs| - 1].0 == name then attrs[|attrs| - 1].1
    else
      var init := attrs[..|attrs| - 1];
      assert forall i :: LastNamed(attrs, name, i) ==> LastNamed(init, name, i);
      Attr(init, name)
  }

  /** The scanner's state: inside a form aimed at the target, and the token found so far. */
  datatype ScanState = ScanState(inForm: bool, csrf: Option<string>)

  const Initial := ScanState(false, None)

  predicate OpensForm(ev: TagEvent) { ev.StartTag? && ev.tag == "form" }

  predicate ClosesForm(ev: TagEvent) { ev.EndTag? && ev.tag == "form" }

  /** An `<input name="csrf_token" ...>` tag. */
  predicate IsTokenInput(ev: TagEvent)
  {
    ev.StartTag? && ev.tag == "input" && Attr(ev.attrs, "name") == Some("csrf_token")
  }

  /** What one tag does to the state. */
  function Step(target: string, st: ScanState, ev: TagEvent): (r: ScanState)
    ensures OpensForm(ev) ==> r == ScanState(Attr(ev.attrs, "action") == Some(target), st.csrf)
    ensures ClosesForm(ev) ==> r == ScanState(false, st.csrf)
    ensures !OpensForm(ev) && !ClosesForm(ev) ==> r.inForm == st.inForm
    ensures r.csrf != st.csrf ==> st.inForm && IsTokenInput(ev) && r.csrf == Attr(ev.attrs, "value")
  {
    match ev
    case StartTag(tag, attrs) =>
      if tag == "form" then st.(inForm := Attr(attrs, "action") == Some(target))
      else if st.inForm && IsTokenInput(ev) then st.(csrf := Attr(attrs, "value"))
      else st
    case EndTag(tag) =>
      if tag == "form" then st.(inForm := false) else st
  }

  /** The state after the events, one at a time, from st. */
  function Run(target: string, st: ScanState, events: seq<TagEvent>): ScanState
  {
    if events == [] then st
    else Step(target, Run(target, st, events[..|events| - 1]), events[|events| - 1])
  }

  /** Feeding a page in two pieces is feeding it whole. */
  lemma {:induction false} RunAppend(target: string, st: ScanState, a: seq<TagEvent>, b: seq<TagEvent>)
    ensures Run(target, st, a + b) == Run(target, Run(target, st, a), b)
  {
    if b != [] {
      var b' := b[..|b| - 1];
      assert (a + b)[..|a + b| - 1] == a + b';
      assert (a + b)[|a + b| - 1] == b[|b| - 1];
      RunAppend(target, st, a, b');
    } else {
      assert a + b == a;
    }
  }

  class CsrfParser {
    const target: string
    var inForm: bool
    var csrf: Option<string>

    function State(): ScanState
      reads this
    {
      ScanState(inForm, csrf)
    }

    constructor(target: string)
      ensures this.target == target && State() == Initial
    {
      this.target := target;
      inForm := false;
      csrf := None;
    }

    /** `handle_starttag`. */
    method HandleStartTag(tag: string, attrs: Attrs)
      modifies this
      ensures State() == Step(target, old(State()), StartTag(tag, attrs))
    {
      if tag == "form" {
        inForm := Attr(attrs, "action") == Some(target);
      } else if inForm && tag == "input" && Attr(attrs, "name") == Some("csrf_token") {
        csrf := Attr(attrs, "value");
      }
    }

    /** `handle_endtag`. */
    method HandleEndTag(tag: string)
      modifies this
      ensures State() == Step(target, old(State()), EndTag(tag))
    {
      if tag == "form" {
        inForm := false;
      }
    }

    /** `feed`: hands every tag of the page, in order, to its handler. */
    method Feed(events: seq<TagEvent>)
      modifies this
      ensures State() == Run(target, old(State()), events)
    {
      var i := 0;
      while i < |events|
        invariant 0 <= i <= |events|
        invariant State() == Run(target, old(State()), events[..i])
      {
        assert events[..i + 1][..i] == events[..i];
        match events[i] {
          case StartTag(tag, attrs) => HandleStartTag(tag, attrs);
          case EndTag(tag) => HandleEndTag(tag);
        }
        i := i + 1;
      }
      assert events[..i] == events;
    }
  }

  /** A fresh parser fed the page: the token it ends up with. */
  method ScrapeToken(target: string, page: seq<TagEvent>) returns (token: Option<string>)
    ensures token == Run(target, Initial, page).csrf
  {
    var parser := new CsrfParser(target);
    parser.Feed(page);
    token := parser.csrf;
  }

  /**
   * The page seen as a document: forms (their attributes and the tags inside) and tags
   * outside any form.
   */
  datatype Part =
    | Form(attrs: Attrs, body: seq<TagEvent>)
    | Loose(ev: TagEvent)

  /** No form opens or closes inside a form, and no loose tag opens or closes one. */
  predicate WellFormed(doc: seq<Part>)
  {
    forall k :: 0 <= k < |doc| ==>
      match doc[k]
      case Form(_, body) => forall j :: 0 <= j < |body| ==> !OpensForm(body[j]) && !ClosesForm(body[j])
      case Loose(ev) => !OpensForm(ev) && !ClosesForm(ev)
  }

  function PartEvents(p: Part): seq<TagEvent>
  {
    match p
    case Form(attrs, body) => [StartTag("form", attrs)] + body + [EndTag("form")]
    case Loose(ev) => [ev]
  }

  function Events(doc: seq<Part>): seq<TagEvent>
  {
    if doc == [] then [] else Events(doc[..|doc| - 1]) + PartEvents(doc[|doc| - 1])
  }

  /** Some token input among the tags carries the value v. */
  predicate Offers(body: seq<TagEvent>, v: Option<string>)
  {
    exists j :: 0 <= j < |body| && IsTokenInput(body[j]) && v == Attr(body[j].attrs, "value")
  }

  /** The value of the last token input among the tags, or prior when there is none. */
  function BodyToken(body: seq<TagEvent>, prior: Option<string>): (r: Option<string>)
    ensures r == prior || Offers(body, r)
  {
    if body == [] then prior
    else if IsTokenInput(body[|body| - 1]) then Attr(body[|body| - 1].attrs, "value")
    else BodyToken(body[..|body| - 1], prior)
  }

  predicate Targets(target: string, p: Part)
  {
    p.Form? && Attr(p.attrs, "action") == Some(target)
  }

  /**
   * The token the page offers: the last token input inside a form aimed at the target; forms
   * with another action and tags outside forms are not consulted.
   */
  function DocToken(target: string, doc: seq<Part>, prior: Option<string>): (r: Option<string>)
    ensures r == prior || exists k :: 0 <= k < |doc| && Targets(target, doc[k]) && Offers(doc[k].body, r)
  {
    if doc == [] then prior
    else
      var before := DocToken(target, doc[..|doc| - 1], prior);
      var last := doc[|doc| - 1];
      if Targets(target, last) then BodyToken(last.body, before) else before
  }

  lemma WellFormedPrefix(doc: seq<Part>)
    requires WellFormed(doc) && doc != []
    ensures WellFormed(doc[..|doc| - 1])
  {
    var p := doc[..|doc| - 1];
    forall k | 0 <= k < |p| ensures doc[k] == p[k] {}
  }

  /** Inside a form, the scanner keeps its form flag and picks up the body's token when aimed. */
  lemma {:induction false} RunBody(target: string, inForm: bool, prior: Option<string>, body: seq<TagEvent>)
    requires forall j :: 0 <= j < |body| ==> !OpensForm(body[j]) && !ClosesForm(body[j])
    ensures Run(target, ScanState(inForm, prior), body)
      == ScanState(inForm, if inForm then BodyToken(body, prior) else prior)
  {
    if body != [] {
      RunBody(target, inForm, prior, body[..|body| - 1]);
    }
  }

  lemma RunPart(target: string, prior: Option<string>, p: Part)
    requires match p
      case Form(_, body) => forall j :: 0 <= j < |body| ==> !OpensForm(body[j]) && !ClosesForm(body[j])
      case Loose(ev) => !OpensForm(ev) && !ClosesForm(ev)
    ensures Run(target, ScanState(false, prior), PartEvents(p))
      == ScanState(false, if Targets(target, p) then BodyToken(p.body, prior) else prior)
  {
    match p
    case Form(attrs, body) =>
      var open := [StartTag("form", attrs)];
      var st := Run(target, ScanState(false, prior), open);
      assert open[..|open| - 1] == [] && open[|open| - 1] == StartTag("form", attrs);
      assert Run(target, ScanState(false, prior), open[..|open| - 1]) == ScanState(false, prior);
      assert OpensForm(open[|open| - 1]);
      var aimed := Attr(attrs, "action") == Some(target);
      assert st == ScanState(aimed, prior);
      RunAppend(target, ScanState(false, prior), open, body);
      RunBody(target, aimed, prior, body);
      RunAppend(target, ScanState(false, prior), open + body, [EndTag("form")]);
      assert [EndTag("form")][..0] == [];
    case Loose(ev) =>
      assert [ev][..0] == [];
  }

  /** The scanner, run over a well-formed page, finds exactly the token the document offers. */
  lemma {:induction false} ScanFindsDocToken(target: string, doc: seq<Part>, prior: Option<string>)
    requires WellFormed(doc)
    ensures Run(target, ScanState(false, prior), Events(doc)) == ScanState(false, DocToken(target, doc, prior))
  {
    if doc != [] {
      var init := doc[..|doc| - 1];
      var last := doc[|doc| - 1];
      WellFormedPrefix(doc);
      ScanFindsDocToken(target, init, prior);
      RunAppend(target, ScanState(false, prior), Events(init), PartEvents(last));
      assert WellFormed(doc) ==> match doc[|doc| - 1]
        case Form(_, body) => forall j :: 0 <= j < |body| ==> !OpensForm(body[j]) && !ClosesForm(body[j])
        case Loose(ev) => !OpensForm(ev) && !ClosesForm(ev);
      RunPart(target, DocToken(target, init, prior), last);
    }
  }

  /** A page with no form aimed at the target yields no token. */
  lemma {:induction false} NoTargetNoToken(target: string, doc: seq<Part>)
    requires WellFormed(doc)
    requires forall k :: 0 <= k < |doc| ==> !Targets(target, doc[k])
    ensures Run(target, Initial, Events(doc)).csrf == None
  {
    ScanFindsDocToken(target, doc, None);
  }

  function Input(name: string, value: string): TagEvent
  {
    StartTag("input", [("name", Some(name)), ("value", Some(value))])
  }

  function FormFor(action: string, body: seq<TagEvent>): Part
  {
    Form([("action", Some(action))], body)
  }

  /** A single form aimed at the target: its token is found. */
  lemma SimpleForm(target: string, token: string)
    ensures Run(target, Initial, Events([FormFor(target, [Input("csrf_token", token), Input("username", "")])])).csrf
      == Some(token)
  {
    var body := [Input("csrf_token", token), Input("username", "")];
    assert IsTokenInput(body[0]);
    assert !IsTokenInput(body[1]);
    assert body[..1] == [body[0]] && body[..1][..0] == [];
    assert BodyToken(body, None) == Some(token);
    AimedForm(target, body);
  }

  /** A page made of one form aimed at the target offers that form's token. */
  lemma AimedForm(target: string, body: seq<TagEvent>)
    requires forall j :: 0 <= j < |body| ==> !OpensForm(body[j]) && !ClosesForm(body[j])
    ensures Run(target, Initial, Events([FormFor(target, body)])).csrf == BodyToken(body, None)
  {
    var doc := [FormFor(target, body)];
    assert Targets(target, doc[0]);
    assert doc[..0] == [];
    ScanFindsDocToken(target, doc, None);
  }

  /** A token in a form aimed elsewhere is ignored in favour of the aimed form's token. */
  lemma OtherFormIgnored(target: string, other: string, wrong: string, right: string)
    requires other != target
    ensures Run(target, Initial,
      Events([FormFor(other, [Input("csrf_token", wrong)]), FormFor(target, [Input("csrf_token", right)])])).csrf
      == Some(right)
  {
    var first := FormFor(other, [Input("csrf_token", wrong)]);
    var second := FormFor(target, [Input("csrf_token", right)]);
    var doc := [first, second];
    assert doc[..1] == [first] && [first][..0] == [];
    assert !Targets(target, first);
    assert [Input("csrf_token", right)][..0] == [];
    assert IsTokenInput(Input("csrf_token", right));
    ScanFindsDocToken(target, doc, None);
  }

  /** An aimed form without a token input leaves the token unset. */
  lemma FormWithoutToken(target: string)
    ensures Run(target, Initial, Events([FormFor(target, [Input("username", "")])])).csrf == None
  {
    var doc := [FormFor(target, [Input("username", "")])];
    assert !IsTokenInput(Input("username", ""));
    assert [Input("username", "")][..0] == [];
    assert doc[..0] == [];
    ScanFindsDocToken(target, doc, None);
  }
}
