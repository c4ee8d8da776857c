# CodeSync client core in Dafny

This project models the pure client-side logic of the CodeSync browser front end. CodeSync is a collaborative code editor: users join a shared session, edit code together, chat, and run code.

The model covers three pages:

- **Collaborative editor page** (`src/pages/EditorVs.tsx`). Its socket listeners form a reducer over the client state: chat transcript, code, selected language, typing indicator and presence list. Incoming events are a sequence. Payloads are dynamically typed: a string, an array, or anything else. The page also has local helpers, all modelled:
  - the output-panel drag clamp;
  - the Judge0 language-id lookup;
  - the choice of what the output panel shows;
  - the saved-theme resolution and the `storage` listener;
  - the guard on the chat send button.
- **Join page** (`src/pages/Join.tsx`). It turns a typed code or link into a session id. It then checks the session, joins it, and only then navigates to the editor.
- **Dashboard** (`src/pages/Dashboard.tsx`). It fetches the created and joined sessions, normalises their fields, tags them and merges them. It counts them by kind, filters out a deleted session, and shows at most three collaborator avatars plus a "+n" badge.

Everything is pure functions over immutable datatypes. Each HTTP request, socket emit and storage read becomes a parameter describing its outcome. The modules follow the source:

- `Values`: optional fields and JavaScript payload values.
- `Text`: `trim`, `split`/`pop`, `toString` for naturals, and upper-casing.
- `Presence`: the `userJoined` roster.
- `Collab`: the listener reducer.
- `EditorPanel`: the editor page's local helpers.
- `JoinSession`: the join page.
- `Sessions`: the dashboard.

Presence is de-duplicated by the value the server sends, not by connection. The page keeps no version numbers.

## Model

| member | source | states |
|---|---|---|
| Text.Trim | src/pages/Join.tsx:23 | The trimmed text is a contiguous part of the input with only white space on either side and none at its own ends; it is empty exactly when the input is all white space |
| Text.LastPiece | src/pages/Join.tsx:24-25 | The piece `split("/").pop()` returns contains no `/`, is a suffix of the input, is the whole input when there is no `/`, and is otherwise preceded by the last `/` |
| Text.LastPieceIsTail | src/pages/Join.tsx:25 | By induction over the split: the last piece of the split is exactly the text after the final separator |
| Text.JoinSplit | src/pages/Join.tsx:25 | Joining the pieces of `split(sep)` with `sep` gives back the original string |
| Text.SplitJoin | src/pages/Join.tsx:25 | Splitting the join of separator-free pieces gives back exactly those pieces (the other direction of the round trip) |
| Text.NatToString | src/pages/EditorVs.tsx:198 | `i.toString()` is a non-empty string of decimal digits with no leading zero |
| Text.ParseNatToString | src/pages/EditorVs.tsx:198 | Reading the decimal string of `n` back gives `n` |
| Text.NatToStringInjective | src/pages/EditorVs.tsx:198 | Two naturals have the same decimal string if and only if they are equal |
| Presence.Dedupe | src/pages/EditorVs.tsx:195 | `[...new Set(xs)]` has no repeated value, is no longer than `xs`, and holds exactly the values of `xs` |
| Presence.DedupeKeepsFirstOccurrenceOrder | src/pages/EditorVs.tsx:195 | The de-duplicated values appear in the order of their first occurrence in the payload |
| Presence.DedupeBySet | src/pages/EditorVs.tsx:195 | The one-pass set-insertion loop computes the same list as the functional de-duplication |
| Presence.Initials | src/pages/EditorVs.tsx:200 | The avatar has at most two characters, which are the input's first `min(2, len)` characters upper-cased, for a string; for anything else it is "UN" |
| Presence.Roster | src/pages/EditorVs.tsx:194-202 | A non-array payload gives an empty list. An array payload gives one entry per distinct value, at most as many as the payload. Entry `i` has id `i` as a decimal string, and its name and avatar come from the `i`-th distinct value |
| Presence.RosterListsEveryValue | src/pages/EditorVs.tsx:195-199 | Every value of an array payload appears in the roster under its display name |
| Presence.RosterIdsDistinct | src/pages/EditorVs.tsx:198 | The ids of a presence list are pairwise different |
| Presence.RosterNamesDistinct | src/pages/EditorVs.tsx:195-199 | If every payload value is a string, no name is listed twice |
| Collab.TypingNotice | src/pages/EditorVs.tsx:185-187 | No notice if and only if the payload is the user's own name; otherwise the notice is the payload's text followed by " is typing..." |
| Collab.Step | src/pages/EditorVs.tsx:176-203 | Each event writes only its own field. `chatHistory` replaces the transcript with the array, or empties it. `receiveMessage` keeps the old transcript as a prefix and adds exactly one message. String code or language payloads are taken as-is; others restore the value captured at registration. The user's own typing notice is ignored. `userJoined` rebuilds the roster |
| Collab.TranscriptOnlyGrows | src/pages/EditorVs.tsx:179-181 | Without a history replay, the transcript after any event sequence is the old transcript followed by the received messages in arrival order |
| Collab.ReplayThenAppend | src/pages/EditorVs.tsx:176-181 | After a history replay, the transcript is the replayed array followed by the messages received since, in order |
| Collab.LastCodeUpdateWins | src/pages/EditorVs.tsx:182-184 | The code after an event sequence comes from the last `codeUpdate`; with no `codeUpdate` it is unchanged |
| Collab.LastLanguageUpdateWins | src/pages/EditorVs.tsx:191-193 | The selected language after an event sequence comes from the last `languageUpdate`; with none it is unchanged |
| Collab.OwnTypingIgnored | src/pages/EditorVs.tsx:185-189 | Typing notices that carry the user's own name never change the typing indicator |
| Collab.RosterStaysWellFormed | src/pages/EditorVs.tsx:194-202 | Every presence list the model holds after any event sequence keeps "entry `i` has id `i`" and, under the ASCII-only upper-casing of `Presence.Initials`, avatars of at most two characters |
| Collab.FromInitialState | src/pages/EditorVs.tsx:42-47 | From the page's initial state (empty transcript, starter code, TypeScript, no typing notice, no users), the presence list stays well formed and, without a history replay, the transcript is exactly the received messages in order |
| EditorPanel.DraggedHeight | src/pages/EditorVs.tsx:327-328 | The dragged height always lies in [80, 500]. It equals `startHeight - deltaY` when that is in range, and sticks to the nearer bound otherwise |
| EditorPanel.DraggedHeightMonotone | src/pages/EditorVs.tsx:327-328 | Moving the mouse further down never makes the panel taller |
| EditorPanel.LanguageId | src/pages/EditorVs.tsx:300-301 | A mapped language gets its `languageMap` entry, and any other language gets 63; the id is always one of the map's values |
| EditorPanel.DefaultIdMeansJavaScriptOrUnknown | src/pages/EditorVs.tsx:300-301 | The id is 63 if and only if the language is JavaScript or unmapped |
| EditorPanel.RunOutput | src/pages/EditorVs.tsx:307-311 | The panel never shows an empty string. It shows the first non-empty field of stdout, stderr and compile_output, else "No output". A failed request shows the error message |
| EditorPanel.RunOutputComesFromReply | src/pages/EditorVs.tsx:308 | A successful run shows one of the reply's non-empty fields or "No output" |
| EditorPanel.LoadSavedTheme | src/pages/EditorVs.tsx:118-124 | The resolved theme is always supported. A supported saved theme is kept, and anything else becomes "vs-dark". "vs-dark" is written back exactly when a non-empty unsupported theme was stored |
| EditorPanel.OnStorageChange | src/pages/EditorVs.tsx:126-130 | The theme only changes on an `editorTheme` event, only to that event's new value, and only to a supported theme; a supported new value is always taken |
| EditorPanel.ThemeAlwaysSupported | src/pages/EditorVs.tsx:118-130 | After loading and any sequence of storage events, the editor theme is a member of the supported themes |
| EditorPanel.SendMessage | src/pages/EditorVs.tsx:287-289 | A draft is sent if and only if it is not all white space. A blank draft stays as it is. Any other draft is sent exactly as typed, untrimmed, and then cleared |
| JoinSession.ExtractSessionId | src/pages/Join.tsx:23-26 | The id never contains `/` and is a suffix of the trimmed input. Without a `/` it is the trimmed input unchanged; otherwise it is the text after the last `/` |
| JoinSession.ExtractIsLastPiece | src/pages/Join.tsx:24-25 | The `includes("/")` test changes nothing: the id is always the last piece of the trimmed input |
| JoinSession.EmptyIdCases | src/pages/Join.tsx:23-28 | Blank input, and a trimmed link that ends in `/`, both give the empty id |
| JoinSession.JoinWithId | src/pages/Join.tsx:28-58 | `loading` ends false on every path. An empty id is rejected with "Please enter a valid session code or link." and no request is made. Otherwise the id is looked up, and joined only if found. The page navigates to `/editorvs/<id>` exactly when the check returned 200 with data and the join succeeded. Each failure path sets its own error message |
| JoinSession.NotFoundOnlyForSuccessStatus | src/pages/Join.tsx:36-55 | For replies axios can deliver (a non-2xx status is thrown, so it never reaches the `else`), the "Session not found" message appears exactly when the id is non-empty and the check answered 2xx without being status 200 with data; a 404 never shows it |
| JoinSession.HandleJoinSession | src/pages/Join.tsx:18-59 | `loading` ends false. All-white-space input makes no request and shows the invalid-code error. Navigation implies the session was found and joined |
| JoinSession.NavigationTargetIsSessionPath | src/pages/Join.tsx:49 | For any id without `/` (every extracted id), the last `/`-piece of `/editorvs/<id>` is that id again |
| Sessions.Normalise | src/pages/Dashboard.tsx:35-43 | A falsy name becomes "Untitled Session" and a falsy language "Unknown". Missing collaborators become [], and isActive is true only when the record says true. The id is kept and the kind tag is attached |
| Sessions.NormalisedFieldsNonEmpty | src/pages/Dashboard.tsx:37-38 | A normalised session never has an empty name or language |
| Sessions.NormaliseAll | src/pages/Dashboard.tsx:46-56 | A non-array reply contributes nothing. An array reply contributes one normalised session per record, in order |
| Sessions.FetchSessions | src/pages/Dashboard.tsx:20-64 | The merged list is the created sessions, tagged created, followed by the joined ones, tagged joined. A failed fetch gives the empty list, and a missing token leaves the list unchanged |
| Sessions.CountsAddUp | src/pages/Dashboard.tsx:312-320 | "Sessions Created" plus "Sessions Joined" equals "Total Sessions" for every list |
| Sessions.FetchedCounts | src/pages/Dashboard.tsx:312-316 | After a fetch, the created and joined counts are the sizes of the two replies |
| Sessions.RemoveId | src/pages/Dashboard.tsx:80 | After the filter no session has the id; every session with another id is kept, and nothing new appears |
| Sessions.RemoveIdCounts | src/pages/Dashboard.tsx:80 | Each session with another id occurs in the filtered list exactly as often as in the original; sessions with the id occur zero times (with `RemoveIdKeepsOrder`, this pins the result to `filter`) |
| Sessions.RemoveIdKeepsOrder | src/pages/Dashboard.tsx:80 | The kept sessions are a subsequence of the original list, in their original order |
| Sessions.DeleteSession | src/pages/Dashboard.tsx:70-83 | The list is filtered only after a successful delete: then the id is gone and every other session stays, with its multiplicity and in its order; a missing token or failed request leaves the list unchanged |
| Sessions.DeleteIdempotent | src/pages/Dashboard.tsx:80 | Deleting the same id a second time changes nothing |
| Sessions.CollaboratorOverflow | src/pages/Dashboard.tsx:262-271 | The row shows the first `min(n, 3)` collaborators. A "+(n-3)" badge appears exactly when `n > 3`. Shown plus hidden equals `n` |
| Sessions.BadgeReadsBack | src/pages/Dashboard.tsx:267-271 | The badge is "+" followed by digits that read back as the number of hidden collaborators |

## Left out

- Socket transport: the connection, the emits (`join`, `leaveRoom`, `codeChange`, `typing`, `languageChange`) and `connect_error` are I/O. Incoming events are a sequence. The chat send is modelled only as the message it would emit.
- HTTP calls (sessions API, Judge0) are I/O. Their outcomes are datatype parameters: `Lookup`, `JoinReply`, `FetchOutcome`, `DeleteOutcome` and `RunOutcome`. axios rejects non-2xx statuses; `JoinSession.AxiosLookup` names the replies it can deliver.
- localStorage: the stored theme and the presence of a token are parameters. The `editorTheme` write-back is returned, not performed. The user name is a parameter; its random `Guest-N` fallback is left out.
- The two-second timer that clears the typing indicator is a timer, so it is left out.
- The session fetch effect that sets the room id and initial language (src/pages/EditorVs.tsx:152-167) is left out; it is plumbing around one HTTP call. `handleCodeChange` and `handleLanguageChange` are also left out; they set a field and emit.
- `lastEdited`: `toLocaleString` date formatting is locale dependent and left out of `Session`.
- Monaco theme definitions, `setTheme` and the mount handler are foreign library calls. The mount handler's theme resolution (src/pages/EditorVs.tsx:225-231) is the same as `LoadSavedTheme`.
- The dashboard's `loading` flag is always cleared by `finally`, so it is not modelled.
- Session records inside an array reply are objects here. A `null` record would make `s._id` throw, and the catch would empty the list; that case is not modelled.
- Pixel values are floats in the browser; heights here are integers.
- Presence.Initials: upper-cases ASCII letters only, and slices by code point rather than UTF-16 code unit. Full Unicode `toUpperCase` (for example "ß" to "SS") and surrogate pairs are not modelled.
- Collab.RosterStaysWellFormed: the two-character avatar bound rests on the ASCII-only upper-casing above. In the browser, `"ßa".slice(0, 2).toUpperCase()` is `"SSA"`, so the page itself can hold a three-character avatar. The id part of the invariant does not depend on this.
- Reading the saved theme can throw (src/pages/EditorVs.tsx:136-139). The page then shows "Failed to load theme. Using default." and its error view (src/pages/EditorVs.tsx:347-359), and never registers the `storage` listener. Storage access is I/O here, so `LoadSavedTheme` takes the stored value as a parameter and this path is not modelled.
- Values.ToText: a `null` or `undefined` array element renders as the empty string in `Array.prototype.join`. The model does not single those out; such values are `Other` with their own text.
- EditorPanel.LanguageId: treats `languageMap` as a map of its own keys. Inherited object properties such as `constructor`, which a JavaScript lookup would return, are not modelled.
- JoinSession.HandleJoinSession: its own contract is weaker than `JoinWithId`'s. The full per-path statement is on `JoinWithId`, which the handler applies to `ExtractSessionId` of the input.
- Navigating to `/editorvs/<id>` is string concatenation here. The router's own URL parsing is not modelled: an id holding `?`, `#` or a percent-escape would reach the editor as a different session id.
- Auth, Settings, Index, EditorPage and SavedProjects pages are form plumbing or static markup. SavedProjects' id filter is the same as `Sessions.RemoveId`.
