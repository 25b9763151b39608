/** Submit-time capture (`handleFormSubmit`): pick the password and the username
    from the submitted form and, when both are non-empty, store them in plain
    text under two fixed keys. */
module Capture {
  import opened JsValues
  import opened Dom
  import opened Store

  /** The two global keys the credential pair is stored under. */
  const UsernameKey: string := "savedUsername"
  const PasswordKey: string := "savedPassword"

  datatype Credential = Credential(username: string, password: string)

  /** `element.type === 'password'` over `form.elements`. */
  const PasswordSelector: Selector := TypeIn(["password"])
  /** `element.type === 'text' || element.type === 'email'` over `form.elements`:
      the fallback username field. */
  const FallbackSelector: Selector := TypeIn(["text", "email"])

  function ValueAt(form: seq<Element>, r: Option<nat>): Option<string>
    requires r.Some? ==> r.value < |form|
  {
    match r
    case None => None
    case Some(i) => Some(form[i].value)
  }

  /** `password` after `handleFormSubmit`'s scan of `form.elements` for a
      password-type control: set exactly when there is one. */
  function SubmittedPassword(form: seq<Element>): (r: Option<string>)
    ensures r.Some? <==> exists i :: 0 <= i < |form| && Matches(form[i], PasswordSelector)
    ensures r.Some? ==> exists i :: 0 <= i < |form| && Matches(form[i], PasswordSelector) && form[i].value == r.value
  {
    ValueAt(form, Query(form, PasswordSelector))
  }

  /** `username` after `handleFormSubmit`'s token loop and its text/email
      fallback: the fallback runs when the token match is missing or empty, and
      when it finds nothing `username` keeps what the token loop gave it. Any
      value found is that of an element carrying a token as name or id, or of a
      text/email control. */
  function SubmittedUsername(form: seq<Element>): (r: Option<string>)
    ensures r.Some? ==>
      exists i :: 0 <= i < |form| && form[i].value == r.value &&
        (form[i].name in UsernameTokens || form[i].id in UsernameTokens || Matches(form[i], FallbackSelector))
  {
    LookupIsTokenNamed(form, UsernameTokens);
    var byToken := ValueAt(form, LookupUsername(form, UsernameTokens));
    if Truthy(byToken) then byToken
    else match Query(form, FallbackSelector)
      case Some(i) => Some(form[i].value)
      case None => byToken
  }

  /** The credential pair a submission of `form` saves, if any. */
  function Captured(form: seq<Element>): (r: Option<Credential>)
    ensures r.Some? ==> r.value.username != "" && r.value.password != ""
  {
    var password := SubmittedPassword(form);
    if !Truthy(password) then None
    else
      var username := SubmittedUsername(form);
      if Truthy(username) then Some(Credential(username.value, password.value)) else None
  }

  /** The store after `handleFormSubmit`'s two `setItem` calls. */
  function Saved(items: map<string, string>, c: Credential): (r: map<string, string>)
    ensures r.Keys == items.Keys + {UsernameKey, PasswordKey}
    ensures r[UsernameKey] == c.username && r[PasswordKey] == c.password
    ensures forall k :: k in items && k != UsernameKey && k != PasswordKey ==> r[k] == items[k]
  {
    assert UsernameKey[5] != PasswordKey[5];
    items[UsernameKey := c.username][PasswordKey := c.password]
  }

  /** The store after a submission of `form`: no key is ever removed, the only
      keys that can appear are the two credential keys, and every other key keeps
      its value. */
  function AfterSubmit(items: map<string, string>, form: seq<Element>): (r: map<string, string>)
    ensures items.Keys <= r.Keys <= items.Keys + {UsernameKey, PasswordKey}
    ensures forall k :: k in items && k != UsernameKey && k != PasswordKey ==> r[k] == items[k]
  {
    match Captured(form)
    case None => items
    case Some(c) => Saved(items, c)
  }

  /** `handleFormSubmit` on the submitted form. */
  method HandleFormSubmit(form: seq<Element>, store: Storage)
    modifies store
    ensures store.items == AfterSubmit(old(store.items), form)
  {
    var password: Option<string> := None;
    var p := Find(form, PasswordSelector);
    if p.Some? {
      password := Some(form[p.value].value);
    }
    if !Truthy(password) {
      return;
    }
    var username: Option<string> := None;
    var u := LocateUsername(form);
    if u.Some? {
      username := Some(form[u.value].value);
    }
    if !Truthy(username) {
      var f := Find(form, FallbackSelector);
      if f.Some? {
        username := Some(form[f.value].value);
      }
    }
    if Truthy(username) && Truthy(password) {
      store.SetItem(UsernameKey, username.value);
      store.SetItem(PasswordKey, password.value);
    }
  }

  // Properties of the capture.

  /** Only the first password-type element counts: when it is empty nothing is
      captured, whatever later password elements hold. */
  lemma FirstPasswordOnly(form: seq<Element>, i: nat)
    requires i < |form| && Matches(form[i], PasswordSelector)
    requires forall j :: 0 <= j < i ==> !Matches(form[j], PasswordSelector)
    ensures SubmittedPassword(form) == Some(form[i].value)
    ensures form[i].value == "" ==> Captured(form) == None
    ensures Captured(form).Some? ==> Captured(form).value.password == form[i].value
  {
    QueryAt(form, PasswordSelector, i);
  }

  /** Without any password-type element nothing is captured. */
  lemma NoPasswordNoCapture(form: seq<Element>)
    requires forall j :: 0 <= j < |form| ==> !Matches(form[j], PasswordSelector)
    ensures Captured(form) == None
  {
    assert Query(form, PasswordSelector) == None;
  }

  /** The element selected for the first token that selects anything is the
      username when it is non-empty. For that token a `name` match anywhere in
      the form wins over an `id` match; tokens are tried in order, so the `id`
      of an earlier token wins over the `name` of a later one. */
  lemma TokenMatchIsUsername(form: seq<Element>, k: nat, i: nat)
    requires k < |UsernameTokens| && i < |form|
    requires forall k', j :: 0 <= k' < k && 0 <= j < |form| ==>
      form[j].name != UsernameTokens[k'] && form[j].id != UsernameTokens[k']
    requires
      || (form[i].name == UsernameTokens[k] && forall j :: 0 <= j < i ==> form[j].name != UsernameTokens[k])
      || (&& (forall j :: 0 <= j < |form| ==> form[j].name != UsernameTokens[k])
          && form[i].id == UsernameTokens[k]
          && forall j :: 0 <= j < i ==> form[j].id != UsernameTokens[k])
    requires form[i].value != ""
    ensures SubmittedUsername(form) == Some(form[i].value)
  {
    var t := UsernameTokens[k];
    if form[i].name == t && forall j :: 0 <= j < i ==> form[j].name != t {
      QueryAt(form, NameIs(t), i);
    } else {
      QueryAt(form, IdIs(t), i);
    }
    assert SelectToken(form, t) == Some(i);
    forall k' | 0 <= k' < k
      ensures SelectToken(form, UsernameTokens[k']).None?
    {
    }
    LookupAt(form, UsernameTokens, k);
  }

  /** With no element named or id'd by any token, the username comes from the
      first text or email input, and stays unset when there is none. */
  lemma NoTokenMatchFallsBack(form: seq<Element>)
    requires forall j :: 0 <= j < |form| ==>
      form[j].name !in UsernameTokens && form[j].id !in UsernameTokens
    ensures SubmittedUsername(form) == ValueAt(form, Query(form, FallbackSelector))
  {
    forall k | 0 <= k < |UsernameTokens|
      ensures SelectToken(form, UsernameTokens[k]).None?
    {
      SelectTokenNone(form, UsernameTokens[k]);
    }
    LookupNone(form, UsernameTokens);
  }

  /** A token match with an empty value still ends the token loop: later tokens
      are not tried, and the username comes from the first text or email input
      (or stays empty). */
  lemma EmptyTokenMatchFallsBack(form: seq<Element>, i: nat)
    requires LookupUsername(form, UsernameTokens) == Some(i) && form[i].value == ""
    ensures SubmittedUsername(form) ==
      match Query(form, FallbackSelector)
      case Some(f) => Some(form[f].value)
      case None => Some("")
  {
  }

  /** The store changes only when a credential is captured, and then exactly the
      two credential keys are overwritten. */
  lemma SubmitTouchesOnlyCredentialKeys(items: map<string, string>, form: seq<Element>)
    ensures Captured(form).None? ==> AfterSubmit(items, form) == items
    ensures Captured(form).Some? ==>
      && AfterSubmit(items, form)[UsernameKey] == Captured(form).value.username
      && AfterSubmit(items, form)[PasswordKey] == Captured(form).value.password
    ensures forall k :: k != UsernameKey && k != PasswordKey ==>
      (k in AfterSubmit(items, form) <==> k in items) &&
      (k in items ==> AfterSubmit(items, form)[k] == items[k])
  {
  }

  // Example submissions.

  /** An input named `email` is chosen over an unnamed text input before it. */
  lemma NamedEmailBeatsUnnamedText(other: string, email: string, password: string)
    requires email != "" && password != ""
    ensures Captured([Element("input", true, "text", "", "", other),
                      Element("input", true, "email", "email", "", email),
                      Element("input", true, "password", "", "", password)])
         == Some(Credential(email, password))
  {
    var form := [Element("input", true, "text", "", "", other),
                 Element("input", true, "email", "email", "", email),
                 Element("input", true, "password", "", "", password)];
    FirstPasswordOnly(form, 2);
    TokenMatchIsUsername(form, 1, 1);
  }

  /** `id="username"` wins over `name="email"`: tokens come first, then name
      before id within each token. */
  lemma EarlierTokenIdBeatsLaterTokenName(email: string, user: string, password: string)
    requires user != "" && password != ""
    ensures Captured([Element("input", true, "email", "email", "", email),
                      Element("input", true, "text", "", "username", user),
                      Element("input", true, "password", "", "", password)])
         == Some(Credential(user, password))
  {
    var form := [Element("input", true, "email", "email", "", email),
                 Element("input", true, "text", "", "username", user),
                 Element("input", true, "password", "", "", password)];
    FirstPasswordOnly(form, 2);
    TokenMatchIsUsername(form, 0, 1);
  }

  /** An empty `name="username"` field stops the token loop; the fallback then
      finds that same empty text input, so a filled `email` field after it is
      never used and nothing is captured. */
  lemma EmptyMatchHidesLaterToken(email: string, password: string)
    ensures Captured([Element("input", true, "text", "username", "", ""),
                      Element("input", true, "email", "email", "", email),
                      Element("input", true, "password", "", "", password)])
         == None
  {
    var form := [Element("input", true, "text", "username", "", ""),
                 Element("input", true, "email", "email", "", email),
                 Element("input", true, "password", "", "", password)];
    QueryAt(form, NameIs("username"), 0);
    LookupAt(form, UsernameTokens, 0);
    QueryAt(form, FallbackSelector, 0);
  }

  /** A later, filled password field does not rescue an empty first one. */
  lemma LaterPasswordIgnored(user: string, password: string)
    ensures Captured([Element("input", true, "text", "username", "", user),
                      Element("input", true, "password", "", "", ""),
                      Element("input", true, "password", "", "", password)])
         == None
  {
    var form := [Element("input", true, "text", "username", "", user),
                 Element("input", true, "password", "", "", ""),
                 Element("input", true, "password", "", "", password)];
    FirstPasswordOnly(form, 1);
  }
}
