# Contact-form demo: validation, in-memory store and browser helpers

This project models the logic of a small Express contact-form site and proves
properties of it in Dafny 4.11.

- **Server (app.js).** `POST /submit` checks four rules in a fixed order:
  name, e-mail, password length, password match. It collects one message per
  failing rule. On any error it answers 400 and leaves the store alone.
  Otherwise it appends an entry to the module-level `submissions` list, with
  `id = length + 1` and trimmed fields. `GET /api/entries` returns that list.
- **Form page (public/js/form.js).** The 0–5 password score and its label,
  the e-mail pattern, the HTML escaper, and the checks run before sending,
  where the first failing check wins.
- **Dashboard (public/js/dashboard.js).** The escaper `esc`, the rendered
  entry list, the lookup of an entry by its printed id, the preloading of the
  edit form, the choice of PUT or POST, and the alert text when the server
  refuses a change.
- **Router (public/js/router.js).** The route name taken from the URL hash,
  the title, and each navigation link's `active` flag.

Files, one module each:

- `wrappers.dfy`: `Option`, standing for a JavaScript field that may be absent.
- `text.dfy`: JavaScript string operations with their JavaScript meaning:
  `trim` and the `\s` white-space set, `join`, `includes`, first-occurrence
  `replace` of one character, and `String(n)` for a non-negative integer.
- `regex.dfy`: the regular expressions. The anchored e-mail pattern is run by
  a small backtracking matcher over tokens (a literal, or a character class
  with `+`). The one-class tests (`/[a-z]/` and its siblings) are a search.
- `submissions.dfy`: app.js. The rules are pure functions. The `errors`
  array is built by a method with one push per failing rule. The store is a
  class whose `submissions` field is a `seq` that `Submit` reassigns.
- `form_client.dfy`: form.js. `ScorePassword` is a method that counts step
  by step. It is proved equal to `Strength`, defined as the number of criteria
  met. The submit handler is a class method that changes the button's
  `disabled` flag and the toast list.
- `dashboard.dfy`: dashboard.js. The editor's state is a class.
  `RenderEntries` rebuilds the list in a loop.
- `router.dfy`: router.js. `ApplyRoute` sets every link's flag in a loop over
  an array.

Facts about the code that the model keeps:

- Ids are `length + 1` (app.js:42), not one more than the largest id.
- The stored message is only trimmed; `<` and `>` are kept (app.js:45).
- app.js has no `PUT /api/entries/:id`, no `POST /api/entries` and no
  `DELETE` route. The dashboard's PUT and POST requests are modelled only as
  the requests the browser builds. Against this server each of them gets
  Express's HTML 404 page, `resp.json()` throws, and the alert is
  'Network error.' (dashboard.js:139-141), so `Dashboard.ErrorText` is only
  reached against a server that answers these routes with JSON.
- The DELETE request is not modelled (see "Left out"). Against this server it
  gets the 404 page, and the alert is 'Delete failed.' (dashboard.js:88-92).

## Model

| member | source | states |
|---|---|---|
| `Text.Trim` | app.js:43-45 | the trimmed string is no longer than the input; it has no white space at either end; it is empty exactly when the input is all white space |
| `Text.TrimIsInfix` | app.js:43-45 | trimming keeps a contiguous piece of the input, starting right after the leading white space; everything before it and everything after it in the input is white space, so inner white space is kept |
| `Text.TrimNoSpace` | app.js:44 | a string without white space is its own trim |
| `Text.TrimIdempotent` | app.js:43-45 | trimming twice gives the same result as trimming once |
| `Text.Join` | public/js/dashboard.js:123 | with a non-empty separator, the joined string is empty exactly when the list is empty or is the single empty string |
| `Text.JoinIncludes` | public/js/dashboard.js:123 | element k of the list occurs in the joined string at the sum of the lengths of the earlier elements, each plus one separator |
| `Text.JoinSeparatorAfter` | public/js/dashboard.js:123 | a separator follows every element but the last |
| `Text.JoinLayout` | public/js/dashboard.js:123 | the joined string holds every element at its offset, in list order, with the separator after each element but the last |
| `Text.JoinLength` | public/js/dashboard.js:123 | the last element ends the joined string, so the string is the elements in order with one separator between neighbours |
| `Text.Includes` | public/js/router.js:15 | `includes` is true exactly when the substring occurs at some position |
| `Text.RemoveFirst` | public/js/router.js:8 | only the first occurrence of the character is removed; without one, the string is unchanged |
| `Text.NatToString` | public/js/dashboard.js:77 | the printed id is non-empty decimal digits with no leading zero (except for 0 itself), and is one digit long exactly when the id is below 10 |
| `Text.NatToStringValue` | public/js/dashboard.js:77 | the printed digits, read in base 10 most significant first, are the number |
| `Text.NatToStringInjective` | public/js/dashboard.js:77 | different ids print differently, so comparing printed ids compares the ids |
| `Regex.Test` | public/js/form.js:45-48 | a one-class test is true exactly when some character of the string is in the class |
| `Regex.EmailOkIff` | app.js:33 | the pattern `^\S+@\S+\.\S+$` accepts exactly the strings with no white space and an '@' at some position i ≥ 1 followed by a '.' at a position j ≥ i + 2 that is not the last character |
| `Regex.TwoAtSignsAccepted` | public/js/form.js:84 | "a@b@c.d" is accepted |
| `Regex.EmailOkHasNoSpace` | app.js:33 | an accepted address has no white space |
| `Submissions.CollectErrors` | app.js:30-35 | the handler's `errors` array is exactly the messages of the failing rules, and it is empty exactly when the form is accepted |
| `Submissions.NoErrorsIffAccepted` | app.js:37 | there are no errors exactly when all four rules pass |
| `Submissions.RejectedIff` | app.js:32-35 | a form is rejected exactly when the name is missing or trims to fewer than 2 characters, or the e-mail is missing or does not match, or the password is missing or shorter than 6, or the password differs from its confirmation |
| `Submissions.ErrorsInRuleOrder` | app.js:30-35 | there is one message per failing rule and none for a passing rule; the messages appear in the order name, e-mail, password, mismatch |
| `Submissions.ShortPasswordAndMismatch` | app.js:34-35 | with a valid name and address, a short password that differs from its confirmation produces exactly the two password messages, in that order |
| `Submissions.ShortNameAndBadEmail` | app.js:32-34 | name "A", e-mail "bad" and no password produce the name, e-mail and password messages together |
| `Submissions.NewEntry` | app.js:41-47 | the new entry has the given id and timestamp; its name is the trimmed name, of length at least 2; its e-mail equals the submitted e-mail (trimming an accepted address changes nothing) and matches the pattern; its message is the trimmed message, or '' when absent |
| `Submissions.AfterSubmit` | app.js:37-49 | a rejected form leaves the list unchanged; an accepted one adds one entry at the end, leaves earlier entries unchanged, and uses id length + 1 |
| `Submissions.AfterSubmitKeepsIds` | app.js:42-49 | a submission keeps "entry i has id i + 1" |
| `Submissions.AfterSubmitExtends` | app.js:37-49 | a submission never shortens the list and never changes an existing entry, whether it is accepted or not |
| `Submissions.ReplayKeepsIds` | app.js:42-49 | after any sequence of submissions, entry i has id i + 1, the list never shrinks, and earlier entries never change |
| `Submissions.SequentialIdsDistinct` | app.js:42 | under that invariant, ids are distinct |
| `Submissions.JoFormAccepted` | app.js:32-35 | "Jo", "jo@x.com" and the matching password "secret" pass every rule |
| `Submissions.JoFormStored` | app.js:41-47 | that form, submitted first, is stored with id 1, name "Jo", e-mail "jo@x.com" and message "hi" |
| `Submissions.SubmissionStore.constructor` | app.js:8 | the store starts empty and satisfies the id invariant |
| `Submissions.SubmissionStore.Submit` | app.js:28-51 | on errors: status 400, exactly the rule messages, store unchanged; otherwise the thank-you response carries the new entry, which is appended; the id invariant is kept |
| `Submissions.SubmissionStore.ListEntries` | app.js:54-56 | returns the current list as it is, in insertion order |
| `FormClient.ScorePassword` | public/js/form.js:41-50 | the score is the number of criteria met (length ≥ 8, a–z, A–Z, a digit, a character outside [A-Za-z0-9]); it is in 0..5; it is 0 exactly for the empty password |
| `FormClient.NonEmptyScores` | public/js/form.js:44-48 | every non-empty password meets at least one criterion |
| `FormClient.StrengthMonotone` | public/js/form.js:44-48 | appending characters never lowers the score |
| `FormClient.PasswordLabel` | public/js/form.js:52-58 | "Very weak" exactly for scores ≤ 1, "Weak" for 2, "Okay" for 3, "Good" for 4, "Strong" for ≥ 5 |
| `FormClient.StrongIffAllCriteria` | public/js/form.js:44-58 | a password is labelled "Strong" exactly when it meets all five criteria, and "Very weak" exactly when its score is at most 1 |
| `FormClient.IsValidEmail` | public/js/form.js:84 | the client's check accepts exactly the strings described under `Regex.EmailOkIff`, the same pattern the server uses |
| `FormClient.EscapeText` | public/js/form.js:175 | the output contains no '<', '>' or '"' and is never shorter than the input |
| `FormClient.EscapeHtml` | public/js/form.js:174-176 | a missing or empty value escapes to ''; a present value escapes to `EscapeText` of it, which decodes back to the value; the output contains no '<', '>' or '"' |
| `FormClient.UnescapeEscape` | public/js/form.js:175 | decoding the four entities of the escaped text gives back the original text |
| `FormClient.EscapeAppend` | public/js/form.js:175 | escaping works character by character (it distributes over concatenation) |
| `FormClient.EscapeKeepsPlainText` | public/js/form.js:175 | text without `& < > "` (an apostrophe, for example) passes through unchanged |
| `FormClient.EscapeTwice` | public/js/form.js:175 | escaping is not idempotent: "&" escaped twice gives "&amp;amp;" |
| `FormClient.FirstFailureSpec` | public/js/form.js:92-111 | the reported rule fails and every earlier rule (name, e-mail, password length, match) passes; nothing is reported exactly when all four pass |
| `FormClient.ClientAgreesWithServer` | public/js/form.js:92-107 | on the fields the browser sends, each client check fails exactly when the matching server rule fails; the form passes exactly when the server accepts it; the client reports the first of the server's failed rules |
| `FormClient.DemoForm.OnSubmit` | public/js/form.js:87-111 | the request is sent exactly when no check fails; on a failure, exactly one toast with that check's message is added and the button is enabled again; when sending, the button stays disabled |
| `Dashboard.EscIsEscapeHtml` | public/js/dashboard.js:16 | `esc` is the same mapping as the form page's `escapeHtml`, including '' for a missing value |
| `Dashboard.EscTextIsEscapeText` | public/js/dashboard.js:16 | the table-driven replacement of `esc` equals `escapeHtml`'s, character by character |
| `Dashboard.CardFor` | public/js/dashboard.js:31-39 | a card's buttons carry the printed id; its name, e-mail and message contain no '<', '>' or '"' and decode back to the entry's text |
| `Dashboard.RenderEntries` | public/js/dashboard.js:23-42 | a missing or empty list shows "No entries yet." and nothing else does; otherwise there is one card per entry, in the order received |
| `Dashboard.FindById` | public/js/dashboard.js:77 | the result is the first entry whose printed id equals the key; the result is none exactly when no entry matches |
| `Dashboard.FindByPrintedId` | public/js/dashboard.js:77 | when ids are distinct, looking up an entry's printed id finds that entry |
| `Dashboard.EditFindsCardEntry` | public/js/dashboard.js:72-78 | when ids are distinct, the Edit button of a rendered card finds the entry the card was drawn from |
| `Dashboard.FindInStore` | public/js/dashboard.js:77 | against the server's list (entry k − 1 has id k), looking up the printed id k gives entry k − 1 |
| `Dashboard.PreloadFields` | public/js/dashboard.js:53-66 | with a preload, each input gets the preload's value, or '' when that value is falsy (id 0, a missing text); without one, all four inputs are '' |
| `Dashboard.Dispatch` | public/js/dashboard.js:109-126 | PUT exactly when the id input is non-empty, to '/api/entries/' + id; otherwise POST to '/api/entries'; the payload is always the name, e-mail and message |
| `Dashboard.EditThenSave` | public/js/dashboard.js:112-126 | after editing an entry with a non-zero id, saving sends PUT to that entry's URL, and the id can be read back from the URL; the new-entry form sends POST with empty fields |
| `Dashboard.EntryEditor.ShowNewForm` | public/js/dashboard.js:53-66 | the form becomes visible and its inputs are the preloaded values |
| `Dashboard.EntryEditor.HideNewForm` | public/js/dashboard.js:68-70 | the form is hidden and its inputs keep their values |
| `Dashboard.EntryEditor.OnEdit` | public/js/dashboard.js:77-78 | when an entry matches, the form shows that entry; when none matches, nothing changes |
| `Dashboard.EntryEditor.SubmitRequest` | public/js/dashboard.js:109-126 | the request built from the current inputs is `Dispatch` of them, so it is PUT exactly when the id input is non-empty |
| `Dashboard.ErrorText` | public/js/dashboard.js:123 | the alert text is never empty |
| `Dashboard.ErrorTextSources` | public/js/dashboard.js:123-136 | a non-empty `error` is shown as it is; otherwise a non-empty `errors.join(', ')` is the text, each message at its offset in list order and followed, all but the last, by ', '; an absent `errors`, `[]` or `['']` gives the default ('Update failed.' or 'Create failed.') |
| `Router.RouteName` | public/js/router.js:8 | the route name is never empty |
| `Router.RouteOfHash` | public/js/router.js:8 | "#name" routes to "name"; "" and "#" route to "home" |
| `Router.Title` | public/js/router.js:11-12 | the title is the form title exactly when the route is "form", and the home title otherwise |
| `Router.NoHrefNeverActive` | public/js/router.js:15 | a link without an href is never active, for any hash |
| `Router.HomeAndFormLinks` | public/js/router.js:15 | on the home route, the link to "/" is active; on the form route, a link is active exactly when its href contains "form" |
| `Router.Page.ApplyRoute` | public/js/router.js:7-17 | the route attribute is the derived route name; the title follows the route; every link's flag is set to "href contains the route, or home and href is '/'", whatever it was before |

## Left out

- Express setup, EJS rendering, static files and `app.listen` (app.js:10-25, 58-60) are framework wiring. The response of `POST /submit` is modelled as "400 with errors" or "thank-you with entry", not as HTML.
- The urlencoded parser can give arrays or objects for a field. The model allows only a string or an absent field.
- `createdAt` is a parameter standing for `new Date().toISOString()`. The dashboard's localised timestamp is not rendered.
- String lengths count Unicode code points. JavaScript counts UTF-16 code units, so the two differ for characters outside the Basic Multilingual Plane.
- `Text.NatToString` models `String(n)` for non-negative integers only. Ids that are not integers, and the exponent form JavaScript uses from 1e21 on, are not modelled.
- The supabase client setup (supabaseClient.js) is configuration of an external library.
- All `fetch` calls, JSON parsing, the "Thank you" success check and the error-HTML scraping (form.js:113-171) are network input and output. So are `onDelete` with its `confirm` and DELETE request, and the loading and error messages of `loadEntries`.
- DOM work is not modelled: toast timing, `updateStrengthUI`'s text, the role-dependent company field, event listeners and `alert`. `Dashboard.RenderEntries` models the cards, not the HTML string.
- `Dashboard.ApiEntry` ids are non-negative integers, and text fields are strings or absent. Other JSON values (a numeric `error`, an `errors` value without `join`) are not modelled.
- `Dashboard.EntryEditor`: what happens after a save succeeds (dashboard.js:118-120, 131-133) is not modelled. Hiding the form and reloading depends on the network response, and `onDelete` is left out for the same reason.
- Concurrency: each handler runs as one atomic step.
