/** Load-time autofill (`autoFillPassword`): read the two stored values and fill
    the first form of the page that has a token-matched username field and a
    password input, overwriting whatever those two fields hold. */
module Autofill {
  import opened JsValues
  import opened Dom
  import opened Store
  import opened Capture

  /** `form.querySelector('input[type="password"]')`: unlike the capture's scan
      of `form.elements`, this test asks for an `input` element, listed or not. */
  const PasswordInput: Selector := InputOfType("password")

  /** The username and password fields `autoFillPassword` would fill in `form`,
      as indices. There is no text/email fallback here: only a token match counts. */
  function FillTarget(form: seq<Element>): (r: Option<(nat, nat)>)
    ensures r.Some? ==> r.value.0 < |form| && r.value.1 < |form|
    ensures r.Some? ==> form[r.value.1].tag == "input" && form[r.value.1].kind == "password"
  {
    match LookupUsername(form, UsernameTokens)
    case None => None
    case Some(u) =>
      match Query(form, PasswordInput)
      case None => None
      case Some(p) => Some((u, p))
  }

  /** `autoFillPassword`'s two assignments: the `value` of the username field,
      then of the password field, is overwritten; when both are the same element
      the password, written last, stays. */
  function FillForm(form: seq<Element>, t: (nat, nat), c: Credential): (r: seq<Element>)
    requires t.0 < |form| && t.1 < |form|
    ensures |r| == |form|
    ensures r[t.1].value == c.password
    ensures t.0 != t.1 ==> r[t.0].value == c.username
    ensures forall j :: 0 <= j < |form| && j != t.0 && j != t.1 ==> r[j] == form[j]
    ensures forall j :: 0 <= j < |form| ==> r[j] == form[j].(value := r[j].value)
  {
    var f := form[t.0 := form[t.0].(value := c.username)];
    f[t.1 := f[t.1].(value := c.password)]
  }

  /** Autofill has both fields to fill in `form`: then some element carries a
      token as its name or id, and some element is a password input. */
  predicate Fillable(form: seq<Element>): (r: bool)
    ensures r ==> exists i :: 0 <= i < |form| && (form[i].name in UsernameTokens || form[i].id in UsernameTokens)
    ensures r ==> exists i :: 0 <= i < |form| && Matches(form[i], PasswordInput)
  {
    LookupIsTokenNamed(form, UsernameTokens);
    FillTarget(form).Some?
  }

  /** The converse: a token-named element and a password input make a form fillable. */
  lemma FillableWhen(form: seq<Element>, u: nat, p: nat)
    requires u < |form| && (form[u].name in UsernameTokens || form[u].id in UsernameTokens)
    requires p < |form| && Matches(form[p], PasswordInput)
    ensures Fillable(form)
  {
    var k :| 0 <= k < |UsernameTokens| && (form[u].name == UsernameTokens[k] || form[u].id == UsernameTokens[k]);
    SelectTokenNone(form, UsernameTokens[k]);
    LookupNone(form, UsernameTokens);
  }

  /** Index of the first form of the page that `autoFillPassword` fills, if any. */
  function FirstFillable(page: seq<seq<Element>>): (r: Option<nat>)
    ensures r.Some? ==> r.value < |page| && Fillable(page[r.value])
    ensures r.Some? ==> forall j :: 0 <= j < r.value ==> !Fillable(page[j])
    ensures r.None? <==> forall j :: 0 <= j < |page| ==> !Fillable(page[j])
  {
    FirstIndex(page, Fillable)
  }

  /** The stored pair `autoFillPassword` reads: usable only when both keys are
      present and non-empty. */
  function StoredCredential(items: map<string, string>): (r: Option<Credential>)
    ensures r.Some? <==>
      UsernameKey in items && items[UsernameKey] != "" && PasswordKey in items && items[PasswordKey] != ""
    ensures r.Some? ==> r.value == Credential(items[UsernameKey], items[PasswordKey])
  {
    var username := Get(items, UsernameKey);
    var password := Get(items, PasswordKey);
    if Truthy(username) && Truthy(password) then Some(Credential(username.value, password.value)) else None
  }

  /** The page after `autoFillPassword`'s form loop has run with the credential
      `c`: no form and no element is added or removed, and only values change. */
  function FilledPage(page: seq<seq<Element>>, c: Credential): (r: seq<seq<Element>>)
    ensures |r| == |page|
    ensures forall j :: 0 <= j < |page| ==> |r[j]| == |page[j]|
    ensures forall j, i :: 0 <= j < |page| && 0 <= i < |page[j]| ==>
      r[j][i] == page[j][i].(value := r[j][i].value)
  {
    match FirstFillable(page)
    case None => page
    case Some(k) => page[k := FillForm(page[k], FillTarget(page[k]).value, c)]
  }

  /** The page after `autoFillPassword` runs against the store `items`: with no
      usable pair nothing changes, and otherwise only element values change. */
  function Autofilled(items: map<string, string>, page: seq<seq<Element>>): (r: seq<seq<Element>>)
    ensures StoredCredential(items).None? ==> r == page
    ensures |r| == |page|
    ensures forall j :: 0 <= j < |page| ==> |r[j]| == |page[j]|
    ensures forall j, i :: 0 <= j < |page| && 0 <= i < |page[j]| ==>
      r[j][i] == page[j][i].(value := r[j][i].value)
  {
    match StoredCredential(items)
    case None => page
    case Some(c) => FilledPage(page, c)
  }

  /** The first fillable form is the one `FirstFillable` returns. */
  lemma FirstFillableAt(page: seq<seq<Element>>, i: nat)
    requires i < |page| && Fillable(page[i])
    requires forall j :: 0 <= j < i ==> !Fillable(page[j])
    ensures FirstFillable(page) == Some(i)
  {
    FirstIndexAt(page, Fillable, i);
  }

  /** One pass of `autoFillPassword`'s form loop: the two fields to fill, if both exist. */
  method LocateFields(form: seq<Element>) returns (target: Option<(nat, nat)>)
    ensures target == FillTarget(form)
  {
    var usernameField := LocateUsername(form);
    var passwordField := Find(form, PasswordInput);
    if usernameField.Some? && passwordField.Some? {
      return Some((usernameField.value, passwordField.value));
    }
    return None;
  }

  /** `autoFillPassword`'s two `getItem` reads and its emptiness check. */
  method ReadStoredCredential(store: Storage) returns (c: Option<Credential>)
    ensures c == StoredCredential(store.items)
  {
    var username := store.GetItem(UsernameKey);
    var password := store.GetItem(PasswordKey);
    if !Truthy(username) || !Truthy(password) {
      return None;
    }
    return Some(Credential(username.value, password.value));
  }

  /** `autoFillPassword`'s loop over the page's forms in document order; it fills
      the first form that has both fields and stops. */
  method FillFirstForm(page: array<seq<Element>>, c: Credential)
    modifies page
    ensures page[..] == FilledPage(old(page[..]), c)
  {
    for i := 0 to page.Length
      invariant page[..] == old(page[..])
      invariant forall j :: 0 <= j < i ==> !Fillable(page[j])
    {
      var target := LocateFields(page[i]);
      if target.Some? {
        FirstFillableAt(page[..], i);
        page[i] := FillForm(page[i], target.value, c);
        return;
      }
    }
  }

  /** `autoFillPassword`, run once the document has loaded. */
  method AutoFillPassword(store: Storage, page: array<seq<Element>>)
    modifies page
    ensures page[..] == Autofilled(store.items, old(page[..]))
  {
    var c := ReadStoredCredential(store);
    if c.Some? {
      FillFirstForm(page, c.value);
    }
  }

  // Properties of the autofill.

  /** Nothing is filled unless both stored values are present and non-empty. */
  lemma NoStoredPairNoFill(items: map<string, string>, page: seq<seq<Element>>)
    requires UsernameKey !in items || items[UsernameKey] == "" || PasswordKey !in items || items[PasswordKey] == ""
    ensures Autofilled(items, page) == page
  {
  }

  /** With a stored pair, exactly the first fillable form is filled with it, and
      every other form is left as it was. */
  lemma FillsFirstFillableOnly(items: map<string, string>, page: seq<seq<Element>>, k: nat)
    requires UsernameKey in items && items[UsernameKey] != "" && PasswordKey in items && items[PasswordKey] != ""
    requires k < |page| && Fillable(page[k])
    requires forall j :: 0 <= j < k ==> !Fillable(page[j])
    ensures |Autofilled(items, page)| == |page|
    ensures Autofilled(items, page)[k] ==
      FillForm(page[k], FillTarget(page[k]).value, Credential(items[UsernameKey], items[PasswordKey]))
    ensures forall j :: 0 <= j < |page| && j != k ==> Autofilled(items, page)[j] == page[j]
  {
    FirstFillableAt(page, k);
  }

  /** At most one form changes, and only the one `FirstFillable` names. */
  lemma AtMostOneFormChanges(items: map<string, string>, page: seq<seq<Element>>)
    ensures |Autofilled(items, page)| == |page|
    ensures forall j :: 0 <= j < |page| && Autofilled(items, page)[j] != page[j] ==> FirstFillable(page) == Some(j)
  {
  }

  /** There is no text/email fallback: a form none of whose elements carries a
      token as its name or id is never fillable. */
  lemma {:induction false} UntokenedFormNotFillable(form: seq<Element>)
    requires forall j :: 0 <= j < |form| ==> form[j].name !in UsernameTokens && form[j].id !in UsernameTokens
    ensures !Fillable(form)
  {
    forall k | 0 <= k < |UsernameTokens|
      ensures SelectToken(form, UsernameTokens[k]).None?
    {
      SelectTokenNone(form, UsernameTokens[k]);
    }
    LookupNone(form, UsernameTokens);
  }

  /** An unnamed text input next to a password input is enough for capture
      (through the fallback) but never for autofill. */
  lemma FallbackCapturedButNotFilled(user: string, password: string)
    requires user != "" && password != ""
    ensures Captured([Element("input", true, "text", "", "", user), Element("input", true, "password", "", "", password)])
         == Some(Credential(user, password))
    ensures !Fillable([Element("input", true, "text", "", "", user), Element("input", true, "password", "", "", password)])
  {
    var form := [Element("input", true, "text", "", "", user), Element("input", true, "password", "", "", password)];
    FirstPasswordOnly(form, 1);
    NoTokenMatchFallsBack(form);
    QueryAt(form, FallbackSelector, 0);
    UntokenedFormNotFillable(form);
  }

  /** The capture and the autofill test for a password field differently. A
      listed `<object type="password">` is the first password-type control the
      capture sees; having no `value` property, it reads as empty, so nothing is
      captured. Autofill passes over it to the `input[type="password"]` after it. */
  lemma ObjectPasswordCapturedNotFilled(user: string, password: string)
    ensures Captured([Element("input", true, "text", "username", "", user),
                      Element("object", true, "password", "", "", ""),
                      Element("input", true, "password", "", "", password)])
         == None
    ensures FillTarget([Element("input", true, "text", "username", "", user),
                        Element("object", true, "password", "", "", ""),
                        Element("input", true, "password", "", "", password)])
         == Some((0, 2))
  {
    var form := [Element("input", true, "text", "username", "", user),
                 Element("object", true, "password", "", "", ""),
                 Element("input", true, "password", "", "", password)];
    FirstPasswordOnly(form, 1);
    QueryAt(form, NameIs("username"), 0);
    LookupAt(form, UsernameTokens, 0);
    QueryAt(form, PasswordInput, 2);
  }

  /** A password input inside the form that belongs to another form (through its
      `form` attribute) is not in `form.elements`: the capture never sees it, but
      autofill's `querySelector` finds it and fills it. */
  lemma UnlistedPasswordFilledNotCaptured(user: string, password: string)
    ensures Captured([Element("input", true, "text", "username", "", user),
                      Element("input", false, "password", "", "", password)])
         == None
    ensures FillTarget([Element("input", true, "text", "username", "", user),
                        Element("input", false, "password", "", "", password)])
         == Some((0, 1))
  {
    var form := [Element("input", true, "text", "username", "", user),
                 Element("input", false, "password", "", "", password)];
    NoPasswordNoCapture(form);
    QueryAt(form, NameIs("username"), 0);
    LookupAt(form, UsernameTokens, 0);
    QueryAt(form, PasswordInput, 1);
  }

  /** Round trip: after a submission that captures `c`, autofill writes exactly
      `c` into the first fillable form's fields, whatever they held before. When
      one element is both fields it ends up holding the password. */
  lemma CaptureThenAutofill(items: map<string, string>, form: seq<Element>, page: seq<seq<Element>>, k: nat)
    requires Captured(form).Some?
    requires k < |page| && Fillable(page[k])
    requires forall j :: 0 <= j < k ==> !Fillable(page[j])
    ensures var after := Autofilled(AfterSubmit(items, form), page);
      var t := FillTarget(page[k]).value;
      && |after| == |page|
      && after[k][t.1].value == Captured(form).value.password
      && (t.0 != t.1 ==> after[k][t.0].value == Captured(form).value.username)
      && (forall j :: 0 <= j < |page| && j != k ==> after[j] == page[j])
  {
    var c := Captured(form).value;
    var stored := AfterSubmit(items, form);
    assert stored == Saved(items, c);
    FillsFirstFillableOnly(stored, page, k);
  }
}
