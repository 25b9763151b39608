/** The part of the document model custom.js relies on: form elements, the three
    kinds of selector it uses, and "first element in document order that matches". */
module Dom {
  import opened JsValues

  /** One element inside a form, in document order: its lower-case tag name
      (`input`, `select`, `object`, ...), whether it is one of the form's listed
      controls (a member of `form.elements`), its `type` (`kind`, "" when it has
      none), its `name` and `id` attributes ("" when absent) and its current
      `value`. A form is the sequence of its descendant elements. */
  datatype Element = Element(tag: string, listed: bool, kind: string, name: string, id: string, value: string)

  /** The element tests custom.js uses on a form. */
  datatype Selector =
    | NameIs(token: string)       // `[name="token"]`
    | IdIs(token: string)         // `[id="token"]`
    | TypeIn(kinds: seq<string>)  // a listed control whose `element.type` is one of `kinds`
    | InputOfType(t: string)      // `input[type="t"]`

  predicate Matches(e: Element, sel: Selector) {
    match sel
    case NameIs(t) => e.name == t
    case IdIs(t) => e.id == t
    case TypeIn(ks) => e.listed && e.kind in ks
    case InputOfType(t) => e.tag == "input" && e.kind == t
  }

  /** Index of the first entry of `s` satisfying `p`, or `None`: a walk in
      document order that stops at its first hit. */
  function FirstIndex<T>(s: seq<T>, p: T -> bool): (r: Option<nat>)
    ensures r.Some? ==> r.value < |s| && p(s[r.value])
    ensures r.Some? ==> forall j :: 0 <= j < r.value ==> !p(s[j])
    ensures r.None? <==> forall j :: 0 <= j < |s| ==> !p(s[j])
  {
    if s == [] then None
    else if p(s[0]) then Some(0)
    else match FirstIndex(s[1..], p)
      case None => None
      case Some(i) => Some(i + 1)
  }

  /** The first index satisfying `p` is the one `FirstIndex` returns. */
  lemma FirstIndexAt<T>(s: seq<T>, p: T -> bool, i: nat)
    requires i < |s| && p(s[i])
    requires forall j :: 0 <= j < i ==> !p(s[j])
    ensures FirstIndex(s, p) == Some(i)
  {
  }

  /** Index of the first element of `form` that matches `sel`, or `None`:
      `form.querySelector(sel)`, and equally a scan of `form.elements` that stops
      at its first hit. */
  function Query(form: seq<Element>, sel: Selector): (r: Option<nat>)
    ensures r.Some? ==> r.value < |form| && Matches(form[r.value], sel)
    ensures r.Some? ==> forall j :: 0 <= j < r.value ==> !Matches(form[j], sel)
    ensures r.None? <==> forall j :: 0 <= j < |form| ==> !Matches(form[j], sel)
  {
    if form == [] then None
    else if Matches(form[0], sel) then Some(0)
    else match Query(form[1..], sel)
      case None => None
      case Some(i) => Some(i + 1)
  }

  /** `Query` is the document-order walk `FirstIndex` with the selector as its test. */
  lemma {:induction false} QueryIsFirstIndex(form: seq<Element>, sel: Selector)
    ensures Query(form, sel) == FirstIndex(form, e => Matches(e, sel))
  {
    if form != [] {
      QueryIsFirstIndex(form[1..], sel);
    }
  }

  /** The first matching element is the one `Query` returns. */
  lemma QueryAt(form: seq<Element>, sel: Selector, i: nat)
    requires i < |form| && Matches(form[i], sel)
    requires forall j :: 0 <= j < i ==> !Matches(form[j], sel)
    ensures Query(form, sel) == Some(i)
  {
  }

  /** The scan itself, over the form's elements. */
  method Find(form: seq<Element>, sel: Selector) returns (r: Option<nat>)
    ensures r == Query(form, sel)
  {
    for i := 0 to |form|
      invariant forall j :: 0 <= j < i ==> !Matches(form[j], sel)
    {
      if Matches(form[i], sel) {
        QueryAt(form, sel, i);
        return Some(i);
      }
    }
    return None;
  }

  /** The name/id tokens tried, in order, to find the username field. */
  const UsernameTokens: seq<string> := ["username", "email", "user", "login", "account"]

  /** `form.querySelector('[name="t"]') || form.querySelector('[id="t"]')`:
      a name match anywhere in the form beats an id match. */
  function SelectToken(form: seq<Element>, t: string): (r: Option<nat>)
    ensures r.Some? ==> r.value < |form| && (form[r.value].name == t || form[r.value].id == t)
  {
    match Query(form, NameIs(t))
    case Some(i) => Some(i)
    case None => Query(form, IdIs(t))
  }

  /** A token selects nothing exactly when no element has it as name or id. */
  lemma SelectTokenNone(form: seq<Element>, t: string)
    ensures SelectToken(form, t).None? <==> forall j :: 0 <= j < |form| ==> form[j].name != t && form[j].id != t
  {
  }

  /** Within one token, the first element named `t` wins when there is one;
      otherwise the first element whose id is `t`. */
  lemma NameBeforeId(form: seq<Element>, t: string)
    ensures (exists j :: 0 <= j < |form| && form[j].name == t) ==>
      SelectToken(form, t) == Query(form, NameIs(t))
    ensures (forall j :: 0 <= j < |form| ==> form[j].name != t) ==>
      SelectToken(form, t) == Query(form, IdIs(t))
  {
  }

  /** The token loop: the first token that selects any element decides, whatever
      that element's value is; later tokens are not tried. */
  function LookupUsername(form: seq<Element>, tokens: seq<string>): (r: Option<nat>)
    ensures r.Some? ==> r.value < |form|
  {
    if tokens == [] then None
    else match SelectToken(form, tokens[0])
      case Some(i) => Some(i)
      case None => LookupUsername(form, tokens[1..])
  }

  /** No username field is found exactly when no token selects anything. */
  lemma {:induction false} LookupNone(form: seq<Element>, tokens: seq<string>)
    ensures LookupUsername(form, tokens).None? <==>
      forall k :: 0 <= k < |tokens| ==> SelectToken(form, tokens[k]).None?
  {
    if tokens != [] {
      LookupNone(form, tokens[1..]);
      assert forall k :: 1 <= k < |tokens| ==> tokens[k] == tokens[1..][k - 1];
    }
  }

  /** The chosen element carries one of the tokens as its name or its id. */
  lemma {:induction false} LookupIsTokenNamed(form: seq<Element>, tokens: seq<string>)
    ensures LookupUsername(form, tokens).Some? ==>
      var i := LookupUsername(form, tokens).value;
      form[i].name in tokens || form[i].id in tokens
  {
    if tokens != [] && SelectToken(form, tokens[0]).None? {
      LookupIsTokenNamed(form, tokens[1..]);
    }
  }

  /** If token `k` is the first that selects an element, that element is the username field. */
  lemma {:induction false} LookupAt(form: seq<Element>, tokens: seq<string>, k: nat)
    requires k < |tokens| && SelectToken(form, tokens[k]).Some?
    requires forall k' :: 0 <= k' < k ==> SelectToken(form, tokens[k']).None?
    ensures LookupUsername(form, tokens) == SelectToken(form, tokens[k])
  {
    if k > 0 {
      assert SelectToken(form, tokens[0]).None?;
      forall k' | 0 <= k' < k - 1
        ensures SelectToken(form, tokens[1..][k']).None?
      {
        assert tokens[1..][k'] == tokens[k' + 1];
      }
      LookupAt(form, tokens[1..], k - 1);
    }
  }

  /** The token loop over the form's elements; it stops at the first token
      that selects an element. */
  method LocateUsername(form: seq<Element>) returns (r: Option<nat>)
    ensures r == LookupUsername(form, UsernameTokens)
  {
    for k := 0 to |UsernameTokens|
      invariant forall k' :: 0 <= k' < k ==> SelectToken(form, UsernameTokens[k']).None?
    {
      var field := Find(form, NameIs(UsernameTokens[k]));
      if field.None? {
        field := Find(form, IdIs(UsernameTokens[k]));
      }
      if field.Some? {
        LookupAt(form, UsernameTokens, k);
        return field;
      }
    }
    LookupNone(form, UsernameTokens);
    return None;
  }
}
