# Portfolio chat widget and projects listing, in Dafny

This project models the two pieces of decision logic in a personal portfolio
site and proves properties of them.

- **The chat widget** (`ChatBot.tsx`). A message is lowered and matched against
  three keyword lists, in a fixed priority order: projects, then about, then
  contact. Matching is plain substring containment. The matched intent picks
  the bot reply. The projects intent fetches the account's repository list and
  formats the first five entries as links. About and contact give fixed texts.
  Every other message gets a "did not understand" reply. A completed call
  appends the user message and the reply to the transcript. `clearChat`
  replaces the transcript with one greeting.
- **The projects page** (`projects.tsx`). The page drops private repositories
  from the fetched list and sorts the rest, most recently updated first. A
  failed response becomes an error line. Each card falls back to `"Otro"` for
  a missing language, to a default style for a language without its own, and
  to a placeholder for a missing description.

The fetch is not modelled as I/O. It is an input value: `FetchOutcome` for
the chat and `PageResponse` for the page. Every reply and every page state is
then a pure, total function of its inputs. `updated_at` is an integer
timestamp.

Modules:

- `Text` (`text.dfy`): an optional value, contiguous substrings, and the
  positional layout of a joined list (`JoinedBy`). It also has the
  prefix/split scanners used to read an entry back.
- `Js` (`js.dfy`): the JavaScript built-ins the code relies on: truthiness,
  `a || b`, `toLowerCase`, `includes` and `join`.
- `ChatBot` (`chatbot.dfy`): the keyword lists, the resolver, the reply
  builder, and the parser that reads an entry line back.
- `Transcript` (`transcript.dfy`): the message list and the `loading` flag.
  A call's start and its completion are separate events, so any interleaving
  with `clearChat` or with another call can be stated.
- `Projects` (`projects.dfy`): the filter, the stable sort, the load outcomes,
  the card fallbacks and the render.

### Behaviour worth noting

- The chat path never checks `res.ok`. A body that parses but is not an array
  (a rate-limit error object, say) gives the "No encontré proyectos" reply,
  and so does an empty array. A thrown fetch or a thrown `json()` gives
  "Hubo un problema" (`ChatBot.HandleMessage`). So does a `null` array
  element, which is not modelled (see "Left out").
- `handleUserMessage` has no guard against a call already in progress: only
  the buttons are disabled while `loading`. `Transcript.FinishCall` has no
  precondition on `loading`, and `Transcript.OverlappingCalls` shows two
  overlapping calls.
- A reply that lands after `clearChat` is appended to the cleared transcript
  by the functional update (`Transcript.LateReplyAfterClear`).
- The input is only lowercased before matching. Accents are not normalised.

## Model

| member | source | states |
|---|---|---|
| Js.Includes | app/components/ChatBot.tsx:55-56 | `msg.includes(kw)` is true exactly when `kw` occurs as a contiguous substring of `msg` at some index |
| ChatBot.MatchIntent | app/components/ChatBot.tsx:55-56 | `keywords.some(...)` is true exactly when some keyword of the list is a substring of the message |
| ChatBot.Resolve | app/components/ChatBot.tsx:72-111 | projects wins whenever a projects keyword occurs, whatever else occurs; about only without a projects keyword; contact only when neither earlier list matches; unresolved exactly when no list matches |
| Js.LowerCaseIdempotent | app/components/ChatBot.tsx:66 | lowering leaves no upper-case letter, lowering twice equals lowering once, and text without upper-case letters (every keyword) is unchanged |
| Js.ToLowerCase | app/components/ChatBot.tsx:66 | lowering keeps the length and lowers each character on its own (`LowerChar`): no upper-case letter remains, and every character that is not an upper-case letter is unchanged |
| Js.Join | app/components/ChatBot.tsx:87 | the empty list joins to the empty text; otherwise the text is as long as the parts plus one separator between each pair of neighbours |
| Js.JoinEnds | app/components/ChatBot.tsx:87 | a joined text starts with the first part and ends with the last |
| Js.JoinLayout | app/components/ChatBot.tsx:108 | a text is the join of the parts exactly when each part sits at its offset with one separator after each part but the last (`JoinedBy`) |
| ChatBot.HandleMessage | app/components/ChatBot.tsx:65-114 | the reply is from the bot; one GET exactly when a projects keyword matches; a thrown fetch or parse gives the fixed connection-problem text; a non-array or empty array gives the fixed "no projects" text; a non-empty array gives HTML; about, contact and unresolved give their fixed replies in priority order |
| ChatBot.NoFetchWithoutProjectsKeyword | app/components/ChatBot.tsx:72-73 | without a projects keyword no request is made and the reply does not depend on any fetch outcome |
| ChatBot.PlainRepliesAreFallbacks | app/components/ChatBot.tsx:67-113 | a reply is plain text exactly when it is one of the three fallbacks (not understood, no projects, connection problem) |
| ChatBot.ListedReplyLayout | app/components/ChatBot.tsx:76-89 | with a non-empty array the reply is HTML and consists of `min(5, n)` entries for the first repositories in the order received, with a blank line between neighbours |
| ChatBot.EntryLine | app/components/ChatBot.tsx:81-85 | an entry starts with the bullet and anchor opening, followed right away by the repository URL, and ends with a line break and the description or "Sin descripción" |
| ChatBot.EntryRoundTrip | app/components/ChatBot.tsx:81-85 | reading an entry back gives the repository's URL as link target and its name as link text; the language in parentheses appears exactly when it is truthy; the text after the line break is the description, or "Sin descripción" when it is falsy |
| ChatBot.TwoRepositoryScenario | app/components/ChatBot.tsx:76-89 | the first quick question with repositories `a` (Go) and `b` lists both in order; `a` shows `(Go)`; both show the placeholder description; one request is made |
| ChatBot.ContactCardLayout | app/components/ChatBot.tsx:100-110 | the contact reply is HTML made of one line per contact, in declared order, separated by `<br/>` |
| ChatBot.ProjectsQuestionResolves | app/components/ChatBot.tsx:23 | the first quick question reaches the projects branch |
| ChatBot.AboutQuestionResolves | app/components/ChatBot.tsx:24 | the second quick question reaches the about branch (no projects keyword occurs in it) |
| ChatBot.ContactQuestionResolves | app/components/ChatBot.tsx:25 | the third quick question reaches the contact branch (neither earlier list matches it) |
| ChatBot.UnrelatedInputNotUnderstood | app/components/ChatBot.tsx:67 | the empty message and `"xyz"` get the fixed not-understood reply and make no request |
| Transcript.BeginCall | app/components/ChatBot.tsx:69 | the start of a call sets `loading` and leaves the transcript as it is |
| Transcript.FinishCall | app/components/ChatBot.tsx:116-121 | a completion grows the transcript by exactly two: earlier messages unchanged and in order, then the user message with the text as typed (not lowered), then the bot reply; `loading` is false afterwards whatever it was |
| Transcript.ClearChat | app/components/ChatBot.tsx:124-128 | whatever the prior transcript, it becomes exactly one bot message, the cleared greeting; `loading` is untouched |
| Transcript.HandleUserMessage | app/components/ChatBot.tsx:65-122 | an uninterrupted call appends the user message and the reply to the transcript and ends with `loading` false |
| Transcript.RunKeepsPaired | app/components/ChatBot.tsx:116-128 | under any interleaving of starts, completions and clears from the initial state, the transcript is a bot message followed by pairs of a plain user message and a bot message |
| Transcript.RunLength | app/components/ChatBot.tsx:116-128 | the transcript length is one (after a clear), or the starting length, plus two per completion since the last clear |
| Transcript.AppendOnlyWithoutClear | app/components/ChatBot.tsx:116-120 | with no clear, earlier messages are never changed, removed or reordered |
| Transcript.LateReplyAfterClear | app/components/ChatBot.tsx:116-128 | a reply that completes after a clear is appended after the cleared greeting |
| Transcript.OverlappingCalls | app/components/ChatBot.tsx:116-121 | two overlapping calls each append their own pair intact, in completion order; the first completion already clears `loading` while the second call is still pending |
| Projects.PublicOnly | app/routes/projects.tsx:27-28 | the filtered list has no private repository and is no longer than the input |
| Projects.PublicOnlyCounts | app/routes/projects.tsx:27-28 | the filtered list holds no private repository and each public repository exactly as often as the input does |
| Projects.PublicOnlyAppend | app/routes/projects.tsx:27-28 | filtering a concatenation is the concatenation of the filtered parts, so the kept repositories keep their input order |
| Projects.PublicOnlySingle | app/routes/projects.tsx:27-28 | a single repository is kept exactly when it is not private |
| Projects.PublicOnlyUpdatedAt | app/routes/projects.tsx:27-28 | the public repositories updated at a given time are the same, in the same order, whether the list is filtered first or the timestamp is picked first |
| Projects.SortByRecency | app/routes/projects.tsx:29-33 | the sorted list is a permutation of its input and timestamps never increase along it |
| Projects.SortIsStable | app/routes/projects.tsx:29-33 | for every timestamp, the repositories with that timestamp come out in their input order |
| Projects.Shown | app/routes/projects.tsx:27-33 | the kept listing is newest first and holds each public repository as often as the response does, and no private one |
| Projects.ShownSpec | app/routes/projects.tsx:27-33 | the kept listing has no private repository, holds each public repository as often as the response does, is newest first, and lists the public repositories with any one timestamp in response order |
| Projects.Load | app/routes/projects.tsx:20-38 | `loading` ends false in every outcome; a non-ok status gives the error "Error al obtener repos" and no repositories; a rejected fetch, or a body that throws after an ok status, gives that thrown message as the error; any error leaves the list empty; a good listing gives the filtered and sorted repositories and no error |
| Projects.LoadedPageView | app/routes/projects.tsx:36-61 | after the response is handled the skeleton is gone; a non-ok status shows the fixed error line; a rejection, or a body that throws after an ok status, shows its message, or an empty grid when the message is empty (falsy); a good listing shows one card per kept repository, in order |
| Projects.MountShowsSkeleton | app/routes/projects.tsx:16-18 | the page mounts loading, with no repositories and no error, and so renders the six skeleton boxes |
| Projects.DisplayedLanguage | app/routes/projects.tsx:127 | the label is the language when it is truthy and `"Otro"` otherwise, so it is never empty |
| Projects.DisplayedDescription | app/routes/projects.tsx:152 | the text is the description when it is truthy and "📭 Sin descripción" otherwise |
| Projects.StyleFor | app/routes/projects.tsx:128-133 | a label outside the five keyed languages gets the default style; a keyed language gets its own emoji and classes, both different from the default ones |
| Projects.CardFor | app/routes/projects.tsx:126-157 | a card carries the repository's id as key, its URL as link, its name as title and in the aria label, the displayed language and description, and the emoji, classes and icon looked up for that language label |
| Projects.DefaultStyleExactlyForUnkeyed | app/routes/projects.tsx:128-133 | a label gets the `📦` default style exactly when it is not one of the five keyed languages; `"Otro"` always gets it |
| Projects.CardFallbacks | app/routes/projects.tsx:126-157 | every card has a non-empty language label and description; a card without a language shows `"Otro"` and `📦`; `📦` appears exactly when the label has no dedicated style |
| Projects.Render | app/routes/projects.tsx:41-164 | six skeleton boxes exactly while loading; after loading, the error line "❌ " + message when the error is truthy, and the grid exactly when it is not; each card has the repository's id as key, its URL as link, its name as title and in the aria label, the displayed language and description, and the emoji, style and icon looked up for that language label |

## Left out

- The HTTP requests and JSON parsing. They are input values (`FetchOutcome`,
  `PageResponse`). Error messages produced by the runtime are opaque strings
  carried in those values.
- Chat array elements that are not repository records. A `null` element makes
  the property read inside `map` throw, and the catch turns that into the
  connection-problem reply. Any other non-record element (a number, a string,
  a nested array) throws nothing: its fields read as `undefined`, so the entry
  shows `href="undefined"`, the text `undefined` and "Sin descripción". In
  the model every array element is a repository record, so neither case
  arises.
- Js.ToLowerCase: lowers only ASCII `A`-`Z` and Latin-1 `À`-`Þ` (except `×`).
  Other Unicode case mappings are not modelled, including those that change
  length. Characters are Unicode scalar values, not UTF-16 code units. Every
  keyword is in the Basic Multilingual Plane, so substring matching agrees.
- ChatBot.EntryRoundTrip: reading back is claimed only when the URL has no
  `"`, the name has no `<` and the language has no `)`. The line itself is
  built the same way for every repository.
- `new Date(updated_at)` parsing. Timestamps are integers. An unparsable date
  (a `NaN` comparison) is not modelled.
- `getRelativeTime`: floating-point division and rounding through
  `Intl.RelativeTimeFormat`.
- React state, hooks and scheduling, and the rendering through
  `dangerouslySetInnerHTML`. `isHtml` is kept in each message, but the view
  renders every message as HTML regardless.
- The `disabled={loading}` attribute on the quick-question buttons. It is view
  behaviour; the handler it protects is modelled without a guard, as written.
- The `open` toggle of the widget. It is a display flag that never touches the
  transcript.
- The JSX icon elements. They are the enumeration `Icon`. A language label
  that names an inherited object property (such as `constructor`) would find a
  non-style value in `languageStyles`. GitHub reports no such language, and
  that case is not modelled.
- The other routes, the root layout, the install prompt, the
  `GithubProjects` component, the router table and the build configuration.
  None of them contains decision logic.
