# Credential capture and autofill in `custom.js`

This project models the password-saving part of the script injected into the
Android app's web view. It has two halves and one store:

- **Submit-time capture** (`handleFormSubmit`). When a form is submitted, the
  script takes the value of the first control in `form.elements` whose `type` is `password`. If that value is
  empty, it stops. Otherwise it looks for the username by trying the tokens
  `username`, `email`, `user`, `login`, `account` in turn. For each token it
  tries a `name` match and then an `id` match. If the token search finds nothing,
  or finds an empty field, it takes the first `text` or `email` control instead.
  When both values are non-empty it writes them in plain text under the keys
  `savedUsername` and `savedPassword`.
- **Load-time autofill** (`autoFillPassword`). It reads the two keys and stops
  unless both are non-empty. It then walks the page's forms in document order.
  It fills the first form that has a token-matched username field and a
  `type="password"` input, overwriting whatever those fields held. It has no
  text/email fallback and no "only fill empty fields" check.
- **The store** (`localStorage`) is a flat map from string keys to string values.

Modules:

- `JsValues` (`js_values.dfy`): a value that may be missing (`undefined`/`null`) and JavaScript truthiness on strings.
- `Dom` (`dom.dfy`): form elements, the selectors the script uses, "first element matching" (`Query`/`Find`), and the username token lookup, which both halves share.
- `Store` (`storage.dfy`): `localStorage` as a class over a `map<string, string>`.
- `Capture` (`capture.dfy`): the capture as specification functions (`Captured`, `AfterSubmit`), the imperative `HandleFormSubmit`, and lemmas about them.
- `Autofill` (`autofill.dfy`): the autofill as specification functions (`FillTarget`, `FirstFillable`, `Autofilled`), the imperative `AutoFillPassword` over the page's array of forms, lemmas, and the capture-then-autofill round trip.

Modelling choices:

- An element is a value with these fields:
  - `tag`: its lower-case tag name;
  - `listed`: whether it is one of the form's listed controls, that is, a member of `form.elements`. An `input` inside the form whose `form` attribute names another form is not listed;
  - `kind`: its `type` ("" when it has none);
  - `name` and `id`: its attributes ("" when absent);
  - `value`: its current value as a string. An element with no `value` property has `value == ""`, which has the same truthiness as `undefined`. A numeric `value` (`<li>`, `<progress>`, `<meter>`) is written as "" when it is 0, because 0 is falsy, and as its decimal string otherwise.
- A form is the sequence of all its descendant elements in document order. `form.querySelector` scans this whole sequence. The `element.type` tests over `form.elements` (the password scan and the text/email fallback of `handleFormSubmit`) test `listed` and `kind` together. So they never hit an element outside `form.elements`, even though elements such as `<a>` or `<link>` also have a `type`.
- The two password tests are kept apart. The capture takes the first listed control whose `type` is `password`, of any tag. Autofill takes the first `input[type="password"]` descendant, listed or not. Two lemmas show forms where the two disagree: `ObjectPasswordCapturedNotFilled` and `UnlistedPasswordFilledNotCaptured`.
- Assigning `value` is taken literally. The DOM's value sanitisation is not modelled: newlines stripped from text and password inputs, spaces trimmed from email inputs, a `<select>` accepting only an existing option, and a file input throwing. The "holds the stored password/username" promises of `FillForm` and `CaptureThenAutofill` hold for this literal assignment.
- The page is an `array<seq<Element>>` with one entry per form. Filling a form overwrites that form's entry. Forms never share an element.
- The tokens are non-empty, so treating an absent `name` or `id` as "" cannot create a spurious match.
- When one element is both the username field and the password field, autofill writes the username and then the password into it, so it ends up holding the password. `FillForm` states this, and so does `CaptureThenAutofill`.

`custom.js` has no credential encoding, no per-domain keys, no expiry, no
session monitor and no re-login budget. Autofill overwrites non-empty fields,
and neither half applies a disabled/hidden filter: the token selectors match
any element, and the fallback takes the first `text`/`email` control.

## Model

| member | source | states |
|---|---|---|
| `Dom.FirstIndex` | app/src/main/assets/custom.js:84-103 | the walk in document order stops at the first entry satisfying the test: it satisfies it, no earlier entry does, and there is none exactly when no entry does |
| `Dom.FirstIndexAt` | app/src/main/assets/custom.js:84-103 | an entry satisfying the test with no earlier one that does is the one the walk returns |
| `Dom.Query` | app/src/main/assets/custom.js:95 | the result is the first element in document order that matches the selector: it matches, nothing before it matches, and there is no result exactly when nothing matches |
| `Dom.QueryIsFirstIndex` | app/src/main/assets/custom.js:95 | a selector query is the same document-order walk as the page's form loop, with the selector as the test |
| `Dom.Find` | app/src/main/assets/custom.js:34-39 | the scan over the form's elements stops at the element `Query` names, so the first password-type element is the one used |
| `Dom.SelectToken` | app/src/main/assets/custom.js:48 | an element selected for a token carries that token as its `name` or its `id` |
| `Dom.SelectTokenNone` | app/src/main/assets/custom.js:48 | a token selects nothing exactly when no element has it as `name` or `id` |
| `Dom.NameBeforeId` | app/src/main/assets/custom.js:48 | within one token, the first `name` match wins over any `id` match; the `id` is consulted only when no element has that name |
| `Dom.LookupUsername` | app/src/main/assets/custom.js:46-53 | the token loop yields an element of the form or nothing; see `LookupAt`, `LookupNone` and `LookupIsTokenNamed` for which element |
| `Dom.LookupAt` | app/src/main/assets/custom.js:46-53 | when token k is the first token that selects anything, the username field is the element token k selects; later tokens are never tried |
| `Dom.LookupNone` | app/src/main/assets/custom.js:46-53 | the token loop finds no field exactly when none of the tokens selects an element |
| `Dom.LookupIsTokenNamed` | app/src/main/assets/custom.js:87-93 | the field the token loop finds carries one of the tokens as its `name` or `id` |
| `Dom.LocateUsername` | app/src/main/assets/custom.js:87-93 | the imperative token loop, checking name and then id per token with a break on the first hit, returns exactly the field `LookupUsername` specifies |
| `Store.Get` | app/src/main/assets/custom.js:77-78 | a read yields the stored value, or null exactly when the key is absent |
| `Store.GetAfterSet` | app/src/main/assets/custom.js:67-78 | reading a key after `setItem` gives the value written, and every other key reads as before |
| `Store.Storage.GetItem` | app/src/main/assets/custom.js:77-78 | `getItem` returns exactly what `Get` gives for the current map |
| `Store.Storage.SetItem` | app/src/main/assets/custom.js:67-68 | `setItem` overwrites one key and leaves every other key as it was |
| `Capture.SubmittedPassword` | app/src/main/assets/custom.js:34-39 | `password` is set exactly when the form has a password-type control, and then holds the value of such a control |
| `Capture.SubmittedUsername` | app/src/main/assets/custom.js:46-63 | a `username` that is set holds the value of an element carrying a token as name or id, or of a text/email control |
| `Capture.Captured` | app/src/main/assets/custom.js:65-70 | a captured pair always has a non-empty username and a non-empty password |
| `Capture.Saved` | app/src/main/assets/custom.js:65-68 | saving sets exactly `savedUsername` and `savedPassword`, overwriting earlier values, and leaves every other key unchanged |
| `Capture.AfterSubmit` | app/src/main/assets/custom.js:29-71 | a submission never removes a key, can add only the two credential keys, and keeps the value of every other key |
| `Capture.HandleFormSubmit` | app/src/main/assets/custom.js:29-71 | the imperative handler leaves the store exactly as `AfterSubmit` describes: untouched unless a pair is captured, and otherwise with the two keys overwritten |
| `Capture.FirstPasswordOnly` | app/src/main/assets/custom.js:34-43 | only the first password-type element counts; if it is empty nothing is captured, whatever later password elements hold |
| `Capture.NoPasswordNoCapture` | app/src/main/assets/custom.js:41-43 | a form without a password-type element captures nothing |
| `Capture.TokenMatchIsUsername` | app/src/main/assets/custom.js:46-53 | the first element selected by the first token that selects anything (name before id within a token) is the username whenever it is non-empty |
| `Capture.NoTokenMatchFallsBack` | app/src/main/assets/custom.js:56-63 | with no token match the username is the value of the first text/email input, and stays unset when there is none |
| `Capture.EmptyTokenMatchFallsBack` | app/src/main/assets/custom.js:49-63 | a token match with an empty value still ends the token loop; the username then comes from the first text/email input, or stays empty |
| `Capture.SubmitTouchesOnlyCredentialKeys` | app/src/main/assets/custom.js:65-68 | a submission changes the store only when a pair is captured, then sets the two keys to it, and never changes any other key |
| `Capture.NamedEmailBeatsUnnamedText` | app/src/main/assets/custom.js:46-63 | an input named `email` is chosen over an unnamed text input that comes before it |
| `Capture.EarlierTokenIdBeatsLaterTokenName` | app/src/main/assets/custom.js:46-53 | `id="username"` wins over `name="email"`, because tokens are tried in order with name and then id for each |
| `Capture.EmptyMatchHidesLaterToken` | app/src/main/assets/custom.js:46-63 | an empty `name="username"` field stops the token loop; the fallback then finds that same empty input, so a filled `email` field is ignored and nothing is saved |
| `Capture.LaterPasswordIgnored` | app/src/main/assets/custom.js:34-43 | an empty first password field is not rescued by a later filled one |
| `Autofill.FillTarget` | app/src/main/assets/custom.js:85-97 | the fields chosen for filling are in the form, and the password field is a password-type input |
| `Autofill.Fillable` | app/src/main/assets/custom.js:97 | a form autofill can fill has an element carrying a token as name or id and a password input |
| `Autofill.FillableWhen` | app/src/main/assets/custom.js:85-97 | the converse: any form with a token-named or token-id element and a password input is fillable |
| `Autofill.FillForm` | app/src/main/assets/custom.js:98-99 | the password field ends up holding the stored password and a distinct username field the stored username, whatever they held before; every other element is unchanged, and no element changes anything but its value |
| `Autofill.FirstFillable` | app/src/main/assets/custom.js:84-103 | the form chosen is the first in document order that has both fields; none before it has them, and there is none exactly when no form has them |
| `Autofill.FirstFillableAt` | app/src/main/assets/custom.js:84-103 | a form that has both fields, with no earlier form that has them, is the one chosen |
| `Autofill.StoredCredential` | app/src/main/assets/custom.js:77-81 | a stored pair is usable exactly when both keys are present and non-empty, and it is then the two stored values |
| `Autofill.LocateFields` | app/src/main/assets/custom.js:85-97 | one pass of the form loop finds exactly the fields `FillTarget` names, or reports that the form has not both |
| `Autofill.ReadStoredCredential` | app/src/main/assets/custom.js:77-81 | the two `getItem` reads and the emptiness check yield exactly `StoredCredential` of the store |
| `Autofill.FilledPage` | app/src/main/assets/custom.js:83-103 | the form loop adds and removes no form and no element, and changes nothing but element values |
| `Autofill.Autofilled` | app/src/main/assets/custom.js:76-104 | with no usable stored pair the page is unchanged; otherwise only element values change |
| `Autofill.FillFirstForm` | app/src/main/assets/custom.js:83-103 | the imperative form loop leaves the page as `FilledPage` describes: only the first fillable form is filled, and the loop stops there |
| `Autofill.AutoFillPassword` | app/src/main/assets/custom.js:76-104 | the imperative autofill leaves the page exactly as `Autofilled` describes for the current store |
| `Autofill.NoStoredPairNoFill` | app/src/main/assets/custom.js:77-81 | if either stored value is missing or empty, no form changes |
| `Autofill.FillsFirstFillableOnly` | app/src/main/assets/custom.js:83-103 | with a usable stored pair, the first form that has both fields is filled with it, and every other form, earlier or later, is unchanged |
| `Autofill.AtMostOneFormChanges` | app/src/main/assets/custom.js:83-103 | at most one form changes, namely the one `FirstFillable` names |
| `Autofill.UntokenedFormNotFillable` | app/src/main/assets/custom.js:87-97 | a form none of whose elements carries a token as its name or id is never filled: autofill has no text/email fallback |
| `Autofill.FallbackCapturedButNotFilled` | app/src/main/assets/custom.js:56-97 | an unnamed text input next to a password input is enough for capture, through the fallback, but never for autofill |
| `Autofill.ObjectPasswordCapturedNotFilled` | app/src/main/assets/custom.js:35-95 | a listed `<object type="password">` is the first password-type control for the capture; it reads as empty, so nothing is saved, while autofill fills the `input[type="password"]` after it |
| `Autofill.UnlistedPasswordFilledNotCaptured` | app/src/main/assets/custom.js:34-97 | a password input that belongs to another form through its `form` attribute is never seen by the capture, but autofill finds and fills it |
| `Autofill.CaptureThenAutofill` | app/src/main/assets/custom.js:65-103 | after a submission that captures (u, p), autofill writes exactly p into the first fillable form's password field and u into a distinct username field, overwriting their contents, and changes no other form |

## Left out

- `hookClick` and the `window.open` override (navigation glue that assigns `location.href`), lines 3-26: not part of this model.
- Event registration (`addEventListener` for `click`, `submit` and `DOMContentLoaded`) and `console.log`: host wiring with no behaviour of its own. The handlers are modelled as methods that the host calls.
- Real DOM and CSS selector semantics. Only the four element tests the script uses are modelled. A control that sits outside a form but is associated with it through the `form` attribute is listed in `form.elements` without being a descendant. The model has no place for such a control, because a form's sequence holds its descendants only.
- DOM value sanitisation on assignment, and numeric `value` properties beyond the string encoding described above.
- Element identity. A form is a value in the page's array, so the model cannot express one element object appearing in two forms.
- `localStorage` failures (quota, storage disabled): the store is a total map and every write succeeds.
- The `type` property of listed controls is taken as given. Values the DOM would normalise, such as the `type` of a `<button>`, are not derived from the attributes.
