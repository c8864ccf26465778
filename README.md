# collabCraft front end: document card, AI assistant, dashboard

A Dafny model of the client-side rules of three React components of the
collabCraft collaborative editor. The server behind the requests is outside
this model.

- **Document card** (`DocumentCard`):
  - the relative "last edited" label: "Just now", then minutes, hours and days;
  - the content preview: tags stripped, cut to 120 code units plus "...";
  - the email check of the invitation form, with the regular expression
    `^[^\s@]+@[^\s@]+\.[^\s@]+$`;
  - the share modal's state. It holds `shareLink`, `shareEmail`, the two
    permission choices and the `loadingLink`/`loadingEmail` flags. Its two
    requests are `POST /documents/:id/share-link` and
    `POST /documents/:id/send-invitation`.
- **AI assistant** (`AIAssistant`):
  - the five-entry feature table, mapping each id to an endpoint;
  - the gate on short content;
  - the text a request sends: tags stripped, at most 2000 code units;
  - how `loading`, `activeFeature` and `result` move around the request;
  - applying the result, which is refused in read-only mode.
- **Dashboard** (`Dashboard`):
  - the authentication gate on the stored token;
  - fetching the document list;
  - deleting one document, which filters it out by id;
  - logging out, which removes the stored token and user;
  - the choice between spinner, empty state and grid.
- **Shared** (`Text`, `Common`):
  - the global replace of `<[^>]*>` by the empty string;
  - the decimal rendering of a count;
  - the outcome of an API call (`Response`) and toast notices (`Notice`).

Component state is a Dafny `class` whose methods update its fields, as the
handlers call their `set…` functions. Each awaited API call is a parameter of
the handler (`Response.Failed` for a rejected promise, or
`Response.Replied(success, data)`). Each handler that calls the API returns the
request it sends (its path, and its body where there is one) and the title
and status of the toast it raises. Elapsed time is an integer number of
milliseconds. Dafny's `/` with a positive divisor is JavaScript's
`Math.floor` of the quotient. A string is a `seq<char>` with one `char` per
UTF-16 code unit, which is what `length` and `substring` count.

Properties proved:

- **Tag stripping.** Its output never has a `<` followed later by a `>`.
  It is idempotent. It leaves a string unchanged exactly when that string is
  tag-free.
- **Relative time.** The nested floors of `formatDate` equal flat
  millisecond ranges: under 1 minute, under 1 hour, under 1 day, under 1
  week. Any negative elapsed time gives "Just now". No two buckets share a
  label.
- **Preview.** It is longer than 120 code units exactly when the stripped
  text was cut. A text of at most 120 code units that already ends in "..."
  is shown as it is. So the suffix alone does not mark a cut, but the length
  does.
- **Email check.** The decision procedure accepts exactly the language of
  the regular expression. That is: one `@`, no JavaScript white space, a
  non-empty local part, and a `.` strictly inside the domain.
- **AI gate.** The gate tests the raw content, so markup alone can pass it
  and send an empty text (`MarkupPassesGate`).
- **Delete filter.** It removes every copy of the id and keeps the other
  documents with their multiplicities. It commutes with concatenation, so
  their relative order is kept.

## Model

| member | source | states |
|---|---|---|
| `Text.StripTags` | frontend/src/components/DocumentCard.jsx:102 | `replace(/<[^>]*>/g, "")`: the result is no longer than the input. It is tag-free. An input without `>` comes back unchanged. |
| `Text.StripTagsDropsTag` | frontend/src/components/DocumentCard.jsx:102 | A leading `<` is dropped together with everything up to the first `>`, as one match. |
| `Text.StripTagsFixedPoints` | frontend/src/components/DocumentCard.jsx:102 | Stripping leaves a string unchanged if and only if the string is tag-free. |
| `Text.StripTagsIdempotent` | frontend/src/components/DocumentCard.jsx:102 | Stripping an already stripped text changes nothing. |
| `Text.NoOpenBracketUnchanged` | frontend/src/components/DocumentCard.jsx:102 | Text without any `<` is tag-free and passes through stripping unchanged. |
| `Text.DecimalString` | frontend/src/components/DocumentCard.jsx:78 | `${n}` for a count: at least one digit, all digits, no leading zero. |
| `Text.DecimalRoundTrip` | frontend/src/components/DocumentCard.jsx:78 | Reading the rendered digits back gives the count. |
| `Text.DecimalStringInjective` | frontend/src/components/DocumentCard.jsx:78 | Distinct counts render as distinct strings. |
| `DocumentCard.AgeOf` | frontend/src/components/DocumentCard.jsx:70-90 | The buckets tried in turn equal ranges of milliseconds: under 60 000 (also every negative time) is just now; under 3 600 000 is ⌊ms/60 000⌋ minutes (1–59); under 86 400 000 is ⌊ms/3 600 000⌋ hours (1–23); under 604 800 000 is ⌊ms/86 400 000⌋ days (1–6); from 604 800 000 on is the calendar date. Exactly one applies. |
| `DocumentCard.Label` | frontend/src/components/DocumentCard.jsx:72-90 | Only the calendar date has no label. Every counted bucket's label ends in " ago". |
| `DocumentCard.LabelInjective` | frontend/src/components/DocumentCard.jsx:72-90 | Two buckets with the same label are the same bucket with the same count. |
| `DocumentCard.OnlyJustNowReadsJustNow` | frontend/src/components/DocumentCard.jsx:72-73 | "Just now" is the label of no other bucket. |
| `DocumentCard.FormatDate` | frontend/src/components/DocumentCard.jsx:66-90 | "Just now" exactly under one minute. No relative label from one week on. Otherwise the count of whole minutes, hours or days followed by "m ago", "h ago" or "d ago". |
| `DocumentCard.FormatDateDistinguishesAges` | frontend/src/components/DocumentCard.jsx:70-90 | Two elapsed times with the same label fall in the same bucket with the same count. |
| `DocumentCard.StrippedContent` | frontend/src/components/DocumentCard.jsx:102 | Missing content gives "". Present content gives its tag-stripped text, which never grows and is tag-free. |
| `DocumentCard.Preview` | frontend/src/components/DocumentCard.jsx:101-104 | At most 123 code units. Longer than 120 exactly when the stripped text is. The whole stripped text when it fits. Otherwise its first 120 code units followed by "...". The result is tag-free. |
| `DocumentCard.ValidEmailMatches` | frontend/src/components/DocumentCard.jsx:159-160 | Every address the decision procedure accepts is in the language of `^[^\s@]+@[^\s@]+\.[^\s@]+$`. |
| `DocumentCard.PatternIsValidEmail` | frontend/src/components/DocumentCard.jsx:159-160 | Every address in that language is accepted by the decision procedure. |
| `DocumentCard.ValidEmailIsPattern` | frontend/src/components/DocumentCard.jsx:159-160 | The email check holds exactly for the regular expression's language. That is: one `@`, no white space, a non-empty local part, and a `.` neither first nor last in the domain. |
| `DocumentCard.PermissionValue` | frontend/src/components/DocumentCard.jsx:415-418 | The radio values are "viewer" and "editor", one for each permission. These strings are what the request bodies carry. |
| `DocumentCard.ShareModal.constructor` | frontend/src/components/DocumentCard.jsx:57-63 | The modal starts closed. Email and link are empty. Both permissions are viewer. Neither loading flag is set. |
| `DocumentCard.ShareModal.ShareClick` | frontend/src/components/DocumentCard.jsx:106-111 | Opening the modal clears both the share link and the email. |
| `DocumentCard.ShareModal.Close` | frontend/src/components/DocumentCard.jsx:323 | Closing the modal. |
| `DocumentCard.ShareModal.EnterEmail` | frontend/src/components/DocumentCard.jsx:400 | The email field holds what was typed. |
| `DocumentCard.ShareModal.ChooseEmailPermission` | frontend/src/components/DocumentCard.jsx:410-413 | The invitation permission is the chosen one. |
| `DocumentCard.ShareModal.ChooseLinkPermission` | frontend/src/components/DocumentCard.jsx:482-485 | The link permission is the chosen one. |
| `DocumentCard.ShareModal.CreateDifferentLink` | frontend/src/components/DocumentCard.jsx:527 | The share link is cleared, back to the generate form. |
| `DocumentCard.ShareModal.GenerateShareLink` | frontend/src/components/DocumentCard.jsx:113-137 | Posts to `/documents/:id/share-link` with the link permission's radio value ("viewer" or "editor"). Only a successful reply replaces the link. `loadingLink` is false afterwards on every outcome. The toast is "Share link generated" on success, "Error" on rejection, and none for an unsuccessful reply. |
| `DocumentCard.ShareModal.SendEmailInvitation` | frontend/src/components/DocumentCard.jsx:148-201 | An empty email gives "Email required". An email the check rejects gives "Invalid email". In both cases nothing is sent and no field changes. A valid one is posted to `/documents/:id/send-invitation` with the email permission's radio value. Success clears the email and replaces the link only when the reply carries a non-empty one. `loadingEmail` is false afterwards on every outcome. |
| `AIAssistant.EndpointIn` | frontend/src/components/AIAssistant.jsx:96-137 | The lookup finds nothing exactly when no entry has the id. Otherwise the endpoint belongs to the first entry with that id. The panel never looks features up itself: each button passes its own entry. The lookup states which endpoint the table pairs with each id. |
| `AIAssistant.EndpointInFinds` | frontend/src/components/AIAssistant.jsx:96-137 | In a table without repeated ids, each entry's id looks up that entry's endpoint. |
| `AIAssistant.FeatureIdsDistinct` | frontend/src/components/AIAssistant.jsx:96-137 | The five feature ids are pairwise distinct. |
| `AIAssistant.FeatureTable` | frontend/src/components/AIAssistant.jsx:96-137 | Each id selects its own endpoint: grammar→grammar-check, enhance→enhance, summarize→summarize, complete→complete, suggestions→suggestions. |
| `AIAssistant.RequestText` | frontend/src/components/AIAssistant.jsx:51 | The text sent is a prefix of the stripped content. Its length is that of the stripped content capped at 2000. It is tag-free. |
| `AIAssistant.MarkupPassesGate` | frontend/src/components/AIAssistant.jsx:35-51 | The gate tests raw length. A single tag of ten or more characters passes it and sends an empty text. |
| `AIAssistant.Assistant.constructor` | frontend/src/components/AIAssistant.jsx:27-29 | Result and active feature start empty, and loading is off. |
| `AIAssistant.Assistant.HandleAIRequest` | frontend/src/components/AIAssistant.jsx:34-72 | Missing content, or content under 10 code units, gives "Not enough content" with no request and no state change. Otherwise the request goes to `/ai/:endpoint` with the prepared text, and the feature becomes active. Only a successful reply replaces the result; on failure the previous result is kept. Loading is false afterwards. |
| `AIAssistant.Assistant.ClickFeature` | frontend/src/components/AIAssistant.jsx:216-222 | A feature button behaves as `handleAIRequest` at its own table entry. Short or missing content gives "Not enough content" and changes nothing. Otherwise the request goes to `/ai/` plus the entry's endpoint with the prepared text. The entry's id becomes the active feature, and it looks up that same endpoint. Only a successful reply replaces the result. Loading is false afterwards. The toast depends on the outcome. |
| `AIAssistant.Assistant.HandleApplyResult` | frontend/src/components/AIAssistant.jsx:74-93 | In read-only mode nothing reaches `onApply` and nothing changes. Otherwise `onApply` gets the current result, and the result and active feature become "". |
| `AIAssistant.Assistant.EditResult` | frontend/src/components/AIAssistant.jsx:182-189 | The Clear button and the result text area set the result. |
| `Dashboard.RemoveById` | frontend/src/app/dashboard/page.jsx:121 | The filter is never longer than the list. It keeps no document with the id, and keeps every document without it. |
| `Dashboard.RemoveByIdCounts` | frontend/src/app/dashboard/page.jsx:121 | A document with the id occurs 0 times afterwards; any other keeps its number of occurrences. |
| `Dashboard.RemoveByIdAppend` | frontend/src/app/dashboard/page.jsx:121 | Filtering a concatenation is concatenating the filtered parts. |
| `Dashboard.RemoveByIdAbsent` | frontend/src/app/dashboard/page.jsx:121 | A list without the id is left unchanged. |
| `Dashboard.RemoveByIdKeepsOrder` | frontend/src/app/dashboard/page.jsx:121 | Two kept documents appear in the same relative order as before. |
| `Dashboard.DashboardPage.constructor` | frontend/src/app/dashboard/page.jsx:36-38 | No documents, no user, loading, and storage as given. |
| `Dashboard.DashboardPage.CheckAuth` | frontend/src/app/dashboard/page.jsx:47-61 | With no token (missing or empty), the route becomes `/auth/login`. Nothing is fetched, no toast is raised and no state changes. With a token, the user is taken only when stored user data exists. The `GET /documents` fetch always runs, with the outcome `FetchDocuments` states. |
| `Dashboard.DashboardPage.FetchDocuments` | frontend/src/app/dashboard/page.jsx:66-83 | Requests `GET /documents`. Only a successful reply replaces the documents. A rejected request raises "Connection Error". Loading ends on every outcome. The page never shows the spinner over a non-empty list. |
| `Dashboard.DashboardPage.DeleteDocument` | frontend/src/app/dashboard/page.jsx:118-138 | Requests `DELETE /documents/:id`. A completed delete filters the id out of the list ("Moved to trash"). A rejected one leaves the list unchanged ("Error"). |
| `Dashboard.DashboardPage.Logout` | frontend/src/app/dashboard/page.jsx:112-116 | The stored token and user are removed, and the route becomes `/`. |
| `Dashboard.DashboardPage.Render` | frontend/src/app/dashboard/page.jsx:140-341 | The spinner exactly while loading, and then there are no documents to hide. The empty state exactly when loaded with no documents. Otherwise the grid, whose count badge is `documents.length` (above 0) and whose cards are the documents. |

## Left out

- The calendar-date fallback of `formatDate` is not modelled. It is the `toLocaleDateString` call, which depends on locale and time zone. The other parts left out here are `Date` parsing and the "Recently" of its `catch`. `FormatDate` takes elapsed milliseconds and gives `None` for a week or more.
- Strings with characters outside the Basic Multilingual Plane are not modelled. A `char` stands for one UTF-16 code unit, and Dafny's `char` cannot hold a lone surrogate.
- The interval while a request is awaited is not modelled. Each handler runs to completion with its response given as a parameter. So the loading flags being true during the call is not observable, and neither are overlapping clicks.
- Stale component state inside the delete handler's closure is not modelled. The delete filters the list current when it completes.
- The 50 ms `setTimeout` before `checkAuth` is not modelled.
- Network calls (`api.get`, `api.post`, `api.delete`) and the AI backend are not modelled. Each is an abstract reply, and the handlers return the request path and body they send.
- A share link that a reply leaves `undefined` is held as the empty string. Both are falsy wherever the link is read.
- `JSON.parse` of the stored user is not modelled: `user` holds the stored text. A malformed entry, which would throw, is not modelled either.
- Only the title and status of each toast are modelled, not its description or duration.
- `handleCopyLink` (a clipboard write), `handleCreateDocument` and every navigation other than the two routes above are not modelled. These are browser and router effects.
- Chakra rendering and styling are not modelled, apart from the spinner/empty/grid choice.
- frontend/src/app/page.js, the static landing page, is not part of this model.
- Ownership, permission tiers, share-link lifetimes and the invitation lifecycle live on the server, whose source is not part of this model.
