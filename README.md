# Smart kiosk admin front-end: a Dafny model of its list logic

The system is the React admin client of a digital-signage kiosk. An operator
logs in, manages the playlist of videos the kiosk devices play, and manages
operator accounts. All state lives behind an HTTP API. The client fetches the
lists, derives the views it shows, and builds the requests that change them.

This project models that client logic and proves properties about it:

- **Playlist engine** (`dashboard.dfy`, module `DashboardPage`):
  - `loadPlaylist` sorts the fetched list by `posicao`, in place, and computes three counters: total, active, and minutes of playback.
  - The page filters the list with a case-insensitive search over `chave` and `fonte`, and shows it five records per page.
  - Adding a video builds one new record with the next id and the next position.
  - Editing a video splits `fonte` into a folder and a file name, validates the dialog, rebuilds the path, and replaces the record by id in a bulk-replace list.
  - Deleting a video removes it by id and renumbers `posicao` to `1..N`.
  - The page state (`playlist`, counters, `searchTerm`, `currentPage`, `loading`) is the class `Dashboard`.
- **Account form** (`usuarios.dfy`, module `UsuariosPage`):
  - Search over `nome`, `email` and `cpf`, ten accounts per page.
  - Field-by-field form updates, the edit prefill, and the form reset.
  - The required-field check and the create/update choice.
  - The rule that an empty new password keeps the stored one.
  - The page state is the class `Usuarios`.
- **Login decision** (`login.dfy`, module `LoginPage`): the first account whose e-mail and password match exactly. There are three outcomes, and a successful login writes `user_name` and `auth`.
- Shared pieces:
  - `listview.dfy` (module `ListView`): `filter`, JavaScript `slice`, the page arithmetic, and the previous/next buttons.
  - `text.dfy` (module `Text`): `toLowerCase`, `includes`, `startsWith`, `endsWith`, `replace`, `trim`.
  - `common.dfy` (module `Common`): `Option`, and `Response`, the outcome of one HTTP call.

HTTP responses, the upload's returned URL and dialog answers are parameters.
Each dashboard handler is a function from the playlist and those answers to the
request it sends (`Outcome`); what happens after the request is not modelled.
On the account page, the success of a save is a parameter of
`Usuarios.Submit`, which returns the `UserRequest` it sends and the alert it shows.
The click methods require the page not to be loading, because the pagers, the
account table and the login form are rendered only once loading has finished.

Behaviour of the code that the model follows as written:

- **Adding a video.** The handler POSTs only the new record to `/Playlist/item` (`DashboardPage.tsx:127`). Edit and delete instead bulk-replace the whole list with `POST /Playlist`. `AddVideo` sends `PostItem`.
- **The "videos/" folder.** The edit dialog decides the folder on the path after a trailing ".mp4" is stripped (`DashboardPage.tsx:142-148`) (`SplitFonte`).
- **Unknown ids.** An edit of an id that is not in the list sends the list unchanged (`ReplaceAbsentId`). A delete of such an id still renumbers every position and sends the list (`RemoveById`).
- **Page bounds.** The buttons only compare with `===` (`DashboardPage.tsx:541`, `:548`), and a reload that shrinks the list does not clamp `currentPage`. While more than one page remains, a page past the last one keeps "next" enabled and shows nothing (`ListView.ForwardPastLastPage`). From a page in range, navigation stays in range (`ListView.ButtonsStayInRange`).
- **Required fields.** `handleSubmit` checks `nome`, `email` and `cpf` on every submit, edits included (`UsuariosPage.tsx:128`). Before it runs, the browser's own validation already requires those three inputs, and the password when creating (`UsuariosPage.tsx:231`, `:242`, `:253`, `:276`; `UsuariosPage.FormValid`). The login form requires both of its inputs (`LoginPage.tsx:79`, `:83`; `LoginPage.LoginFormValid`).

## Model

| member | source | states |
|---|---|---|
| `ListView.Filter` | src/pages/DashboardPage.tsx:59-62 | `filter` keeps exactly the elements satisfying the predicate and never grows the list |
| `ListView.FilterIsSubsequence` | src/pages/DashboardPage.tsx:59-62 | the kept elements appear in their original relative order |
| `ListView.FilterConcat` | src/pages/DashboardPage.tsx:59-62 | filtering a concatenation is concatenating the filtered parts |
| `ListView.FilterKeepsAll` | src/pages/DashboardPage.tsx:59-62 | a predicate every element passes returns the list unchanged |
| `ListView.FilterAgreeing` | src/pages/DashboardPage.tsx:59-62 | predicates that agree on the list select the same sub-list |
| `ListView.FilterMultiplicity` | src/pages/DashboardPage.tsx:44 | each element occurs in the filtered list as often as in the list, or not at all |
| `ListView.FilterPermutation` | src/pages/DashboardPage.tsx:44 | filtering permutations of each other gives permutations of each other |
| `ListView.Page` | src/pages/DashboardPage.tsx:65-67 | a page holds at most `recordsPerPage` records for any page number |
| `ListView.SliceIndex` | src/pages/DashboardPage.tsx:67 | a `slice` index lands in [0, n]: a non-negative index is clamped to n, a negative one counts back from the end and stops at 0 |
| `ListView.Slice` | src/pages/DashboardPage.tsx:67 | `slice` is never longer than the list; for non-negative indices in order it is the elements from start up to end, cut at the list's end |
| `ListView.TotalPagesIsCeiling` | src/pages/DashboardPage.tsx:68 | `Math.ceil(n/size)` is the least page count holding n records; 0 pages exactly for an empty list |
| `ListView.TotalPages` | src/pages/DashboardPage.tsx:68 | the page count is 0 exactly when there are no records |
| `ListView.PageWindow` | src/pages/DashboardPage.tsx:65-67 | for page p >= 1 the page is the slice [(p-1)*size, p*size) cut at the list's end |
| `ListView.PagesUpToPrefix` | src/pages/DashboardPage.tsx:65-67 | pages 1..k concatenated are the first k*size records |
| `ListView.PagesCoverList` | src/pages/DashboardPage.tsx:65-68 | pages 1..totalPages concatenated give back the filtered list exactly |
| `ListView.PageBeyondLast` | src/pages/DashboardPage.tsx:65-68 | every page past totalPages is empty |
| `ListView.PageBeforeLastIsFull` | src/pages/DashboardPage.tsx:65-68 | every page before the last holds exactly `recordsPerPage` records |
| `ListView.ButtonsStayInRange` | src/pages/DashboardPage.tsx:535-549 | from a page in [1, totalPages] an enabled previous/next button leads to a page in [1, totalPages] |
| `ListView.ForwardPastLastPage` | src/pages/DashboardPage.tsx:548 | on page 3 of 2 the next button is enabled and the page shown is empty |
| `ListView.CanGoBack` | src/pages/DashboardPage.tsx:535-542 | "previous" is only ever enabled when the pager is shown (more than one page); from a page in range it is enabled exactly when the page is not the first |
| `ListView.CanGoForward` | src/pages/DashboardPage.tsx:535-549 | "next" is only ever enabled when the pager is shown; from a page in range it is enabled exactly when the page is not the last |
| `Text.Lower` | src/pages/DashboardPage.tsx:60 | lower-casing keeps the length and maps each character through the ASCII case map |
| `Text.StartsWith` | src/pages/DashboardPage.tsx:145 | `startsWith` holds exactly when the string is the prefix followed by the rest of it |
| `Text.EndsWith` | src/pages/DashboardPage.tsx:142 | `endsWith` holds exactly when the string is its front followed by the suffix |
| `Text.RemoveFirst` | src/pages/DashboardPage.tsx:147 | `replace(pattern, '')` removes a leading occurrence, leaves a string without the pattern unchanged and otherwise removes exactly the pattern's length |
| `Text.Includes` | src/pages/DashboardPage.tsx:60-61 | every string includes the empty string, and a needle that is found is no longer than the haystack |
| `Text.LowerIdempotent` | src/pages/DashboardPage.tsx:60 | lower-casing an already lowercased string changes nothing |
| `Text.IncludesEmpty` | src/pages/DashboardPage.tsx:59-62 | every string includes the empty term |
| `Text.TrimIdempotent` | src/pages/DashboardPage.tsx:189-191 | trimming a trimmed string changes nothing |
| `Text.IncludesAt` | src/pages/DashboardPage.tsx:60-61 | `includes` holds exactly when the needle occurs at some offset of the haystack |
| `Text.Trim` | src/pages/DashboardPage.tsx:189-191 | `trim` gives a slice of the input with only whitespace cut off; it is empty exactly for an all-whitespace input, and an input without surrounding whitespace is unchanged |
| `DashboardPage.SortByPosicao` | src/pages/DashboardPage.tsx:40 | after the in-place sort the array is ascending by `posicao` and a permutation of the fetched data |
| `DashboardPage.CountActive` | src/pages/DashboardPage.tsx:44 | `totalAtivos` never exceeds the number of records |
| `DashboardPage.TotalMinutes` | src/pages/DashboardPage.tsx:45-46 | `totalTempoMinutos` is the floor of the summed milliseconds divided by 60000 |
| `DashboardPage.SumDuracao` | src/pages/DashboardPage.tsx:45 | the `reduce` over `duracao` from 0; its properties are the lemmas in the next rows |
| `DashboardPage.SumDuracaoIsReduce` | src/pages/DashboardPage.tsx:45 | the total duration (`SumDuracao`) of a non-empty list is the total of all but the last record plus the last record's duration, as the left-to-right `reduce` from 0 accumulates it |
| `DashboardPage.SumDuracaoBounds` | src/pages/DashboardPage.tsx:45 | when every duration is non-negative the total duration is non-negative and at least each record's duration |
| `DashboardPage.SumDuracaoConcat` | src/pages/DashboardPage.tsx:45 | the duration sum of a concatenation is the sum of the parts' sums |
| `DashboardPage.SumDuracaoPermutation` | src/pages/DashboardPage.tsx:40-45 | the total duration is the same for the sorted and the fetched order |
| `DashboardPage.CountActivePermutation` | src/pages/DashboardPage.tsx:40-44 | the active count is the same for the sorted and the fetched order |
| `DashboardPage.ContiguousIsSorted` | src/pages/DashboardPage.tsx:236-241 | positions 1..N in list order make the list sorted by position |
| `DashboardPage.FilterPlaylistSelects` | src/pages/DashboardPage.tsx:59-62 | the search keeps exactly the records whose lowercased `chave` or `fonte` includes the lowercased term, in playlist order |
| `DashboardPage.FilterPlaylist` | src/pages/DashboardPage.tsx:59-62 | the filtered playlist is no longer than the playlist and holds exactly its records that match the case-insensitive search |
| `DashboardPage.EmptySearchShowsAll` | src/pages/DashboardPage.tsx:59-62 | the empty term returns the whole playlist |
| `DashboardPage.SearchIgnoresCase` | src/pages/DashboardPage.tsx:59-62 | searching for a term and for its lowercase form give the same list |
| `DashboardPage.MaxId` | src/pages/DashboardPage.tsx:118 | `Math.max` of the ids is an id of the list and bounds all of them |
| `DashboardPage.NextId` | src/pages/DashboardPage.tsx:118 | the new id exceeds every existing id; it is 1 for an empty list and otherwise max id + 1 |
| `DashboardPage.NewItem` | src/pages/DashboardPage.tsx:117-125 | the new record's id is the largest id + 1, or 1 for an empty playlist, so it differs from every id; it has the typed `chave`, the uploaded URL as `fonte`, `tipo` "video", `duracao` = seconds × 1000, position length + 1 and `ativo` true |
| `DashboardPage.NewItemKeepsInvariants` | src/pages/DashboardPage.tsx:117-125 | appending the new record keeps ids unique and positions 1..N |
| `DashboardPage.NextIdExample` | src/pages/DashboardPage.tsx:118 | ids 2, 5, 7 give the new id 8 |
| `DashboardPage.AddVideo` | src/pages/DashboardPage.tsx:85-133 | nothing is sent unless the form came back with a non-empty `chave` (no duration check); a failed upload posts nothing. Otherwise one record is posted on its own, with the typed `chave`, the uploaded URL, `tipo` "video", `ativo` true, `duracao` = seconds × 1000, position length + 1 and the id `NextId` gives (the largest id + 1, or 1), above every existing id |
| `DashboardPage.SplitThenBuild` | src/pages/DashboardPage.tsx:140-148 | for a path ending in ".mp4", folder + file name + ".mp4" rebuilds the path |
| `DashboardPage.StripMp4` | src/pages/DashboardPage.tsx:141-144 | a path ending in ".mp4" is the stripped path followed by ".mp4"; any other path is kept |
| `DashboardPage.SplitFonte` | src/pages/DashboardPage.tsx:140-148 | the folder is "videos/" exactly when the ".mp4"-stripped path starts with it, and folder + file name is the stripped path |
| `DashboardPage.BuildFonte` | src/pages/DashboardPage.tsx:199 | the rebuilt path ends in ".mp4", starts with the chosen folder, and strips back to folder + file name |
| `DashboardPage.BuildThenSplit` | src/pages/DashboardPage.tsx:199 | splitting a rebuilt path gives back folder and file name, unless a root file name starts with "videos/" |
| `DashboardPage.SplitExample` | src/pages/DashboardPage.tsx:140-148 | "videos/promo.mp4" splits into "videos/" and "promo"; "promo" at the root rebuilds to "promo.mp4" |
| `DashboardPage.ConfirmEdit` | src/pages/DashboardPage.tsx:188-203 | the edit is accepted exactly when trimmed `chave` and trimmed file name are non-empty and the seconds parse to a positive number. An accepted edit keeps `id`, `tipo`, `posicao` and `ativo`, stores the trimmed `chave`, the rebuilt path and `duracao` = seconds × 1000 |
| `DashboardPage.EditUnchangedRoundTrip` | src/pages/DashboardPage.tsx:138-203 | confirming the dialog as it opened returns the record unchanged, for a ".mp4" record with whole seconds and no surrounding blanks |
| `DashboardPage.EditPrefill` | src/pages/DashboardPage.tsx:140-150 | the dialog opens with the record's `chave`, the folder "videos/" preselected exactly when the stripped path starts with it, folder + file name equal to the stripped path (rebuilding a ".mp4" path exactly), and the duration in whole seconds rounded down |
| `DashboardPage.EditSecondsRoundTrip` | src/pages/DashboardPage.tsx:150 | reopening an edited record shows the seconds that were saved (seconds × 1000 floor-divided by 1000) |
| `DashboardPage.ReplaceAbsentId` | src/pages/DashboardPage.tsx:208-210 | the list update with an id not in the list leaves it unchanged |
| `DashboardPage.ReplaceById` | src/pages/DashboardPage.tsx:208-210 | the `map` keeps the length, puts the edited record at every position holding the id and leaves every other record as it was |
| `DashboardPage.ReplaceKeepsShape` | src/pages/DashboardPage.tsx:208-210 | in a list with unique ids, replacing a record by one with its id and position keeps length, ids, positions, id uniqueness, contiguity and every other record |
| `DashboardPage.EditReplacesOnlyThatItem` | src/pages/DashboardPage.tsx:208-210 | in a list with unique ids an accepted edit replaces only the edited record; length, ids, positions, the other records, id uniqueness and contiguity are kept |
| `DashboardPage.EditVideo` | src/pages/DashboardPage.tsx:206-211 | a cancelled dialog sends nothing and an invalid one only shows the validation message. An accepted one sends the whole list, of unchanged length, with the edited record at each position holding its id and every other record as it was |
| `DashboardPage.RemoveByIdLength` | src/pages/DashboardPage.tsx:236 | with unique ids, deleting a present id removes exactly one record |
| `DashboardPage.Renumber` | src/pages/DashboardPage.tsx:238-241 | renumbering keeps length, ids and every field but `posicao`, and sets the positions to exactly 1..N in list order |
| `DashboardPage.RemoveById` | src/pages/DashboardPage.tsx:236-241 | after a delete no record has the id and positions are exactly 1..N in list order. The remaining records are those with another id, in their order, with all fields but `posicao` unchanged |
| `DashboardPage.RemoveExample` | src/pages/DashboardPage.tsx:236-241 | deleting id 2 from ids 1, 2, 3 at positions 1, 2, 3 leaves id 1 at 1 and id 3 at 2 |
| `DashboardPage.DeleteVideo` | src/pages/DashboardPage.tsx:234-242 | the list is sent exactly when the deletion is confirmed; it has no record with the deleted id, positions 1..N, and otherwise the records with another id in their order, all fields but `posicao` unchanged |
| `DashboardPage.Dashboard.constructor` | src/pages/DashboardPage.tsx:22-31 | the initial state: empty playlist, loading, zero counters, empty search, page 1 |
| `DashboardPage.Dashboard.LoadPlaylist` | src/pages/DashboardPage.tsx:34-52 | a good fetch stores the data sorted by `posicao` and a permutation of it, with counters of its length, active count and floored minutes. A failed fetch keeps playlist and counters; loading ends either way |
| `DashboardPage.Dashboard.CurrentRecords` | src/pages/DashboardPage.tsx:65-67 | the shown records are the window [(p-1)*5, p*5) of the filtered list, at most 5 |
| `DashboardPage.Dashboard.Filtered` | src/pages/DashboardPage.tsx:59-62 | the filtered playlist holds exactly the records of the playlist that match the current search term |
| `DashboardPage.Dashboard.PageCount` | src/pages/DashboardPage.tsx:68 | `totalPages` is the least count of five-record pages that holds the filtered list; 0 exactly when it is empty |
| `DashboardPage.Dashboard.ChangeSearch` | src/pages/DashboardPage.tsx:474 | typing a search term stores it and resets the page to 1 |
| `DashboardPage.Dashboard.PreviousPage` | src/pages/DashboardPage.tsx:535-543 | "previous" moves back one page unless on page 1 or without a pager, and keeps an in-range page in range |
| `DashboardPage.Dashboard.NextPage` | src/pages/DashboardPage.tsx:546-549 | "next" moves on one page unless on page totalPages or without a pager, and keeps an in-range page in range |
| `UsuariosPage.FilterUsuariosSelects` | src/pages/UsuariosPage.tsx:59-63 | the search keeps exactly the accounts whose lowercased `nome`, `email` or `cpf` includes the lowercased term, in order |
| `UsuariosPage.FilterUsuarios` | src/pages/UsuariosPage.tsx:59-63 | the filtered list is no longer than the accounts and holds exactly those matching the case-insensitive search |
| `UsuariosPage.EmptySearchShowsAll` | src/pages/UsuariosPage.tsx:59-63 | the empty term returns every account |
| `UsuariosPage.SearchIgnoresCase` | src/pages/UsuariosPage.tsx:59-63 | searching for a term and for its lowercase form give the same list |
| `UsuariosPage.ApplyChange` | src/pages/UsuariosPage.tsx:117-123 | an input change sets only the named field: a text input's value, or the checkbox's checked state for `ativo` |
| `UsuariosPage.SubmitRequest` | src/pages/UsuariosPage.tsx:125-144 | no request when `nome`, `email` or `cpf` is empty. Otherwise: a PUT to the recorded account's id exactly when editing with a recorded account, whose body is the form with the typed password or, if that is empty, the stored one; or a POST of the form unchanged |
| `UsuariosPage.EditPrefill` | src/pages/UsuariosPage.tsx:103-111 | the edit form gets every field from the account except the password, which is blank |
| `UsuariosPage.FormValid` | src/pages/UsuariosPage.tsx:231-276 | the browser's `required` checks: `nome`, `email` and `cpf` non-empty, and the password non-empty when creating |
| `UsuariosPage.RequiredFilled` | src/pages/UsuariosPage.tsx:128 | the handler's check passes exactly when every always-required input (`nome`, `email`, `cpf`) is non-empty |
| `UsuariosPage.MergedSenha` | src/pages/UsuariosPage.tsx:137 | the update's password: a typed password wins, a blank one keeps the stored one, and the result is blank only when both are |
| `UsuariosPage.ApplyChanges` | src/pages/UsuariosPage.tsx:117-123 | a sequence of change events is applied first to last: none leaves the form as it is, and the last applies to the form the earlier ones produced |
| `UsuariosPage.SubmitClick` | src/pages/UsuariosPage.tsx:225-277 | the browser blocks a form missing `nome`, `email`, `cpf`, or the password when creating, so nothing is sent. Past it the handler's request is sent, never blocked by its own check, and a creation always carries a password |
| `UsuariosPage.EditWithoutPasswordKeepsAccount` | src/pages/UsuariosPage.tsx:103-139 | opening an account and saving it untouched sends its own fields and its stored password back to its id |
| `UsuariosPage.PasswordRetainedAcrossChanges` | src/pages/UsuariosPage.tsx:103-139 | after opening an account, any changes that do not type a password keep the stored password in the update |
| `UsuariosPage.SenhaUntouched` | src/pages/UsuariosPage.tsx:117-123 | change events to other fields leave the password field as it was |
| `UsuariosPage.Usuarios.constructor` | src/pages/UsuariosPage.tsx:22-40 | the initial state: no accounts, loading, empty search, page 1, hidden empty form, not editing |
| `UsuariosPage.Usuarios.LoadUsuarios` | src/pages/UsuariosPage.tsx:42-53 | a good fetch replaces the accounts, a failed one keeps them; loading ends either way |
| `UsuariosPage.Usuarios.CurrentRecords` | src/pages/UsuariosPage.tsx:65-67 | the shown accounts are the window [(p-1)*10, p*10) of the filtered list, at most 10 |
| `UsuariosPage.Usuarios.Filtered` | src/pages/UsuariosPage.tsx:59-63 | the filtered list holds exactly the accounts matching the current search term |
| `UsuariosPage.Usuarios.PageCount` | src/pages/UsuariosPage.tsx:68 | `totalPages` is the least count of ten-account pages that holds the filtered list; 0 exactly when it is empty |
| `UsuariosPage.Usuarios.ChangeSearch` | src/pages/UsuariosPage.tsx:322 | typing a search term stores it and resets the page to 1 |
| `UsuariosPage.Usuarios.PreviousPage` | src/pages/UsuariosPage.tsx:381-390 | "previous" moves back one page unless disabled, keeping an in-range page in range |
| `UsuariosPage.Usuarios.NextPage` | src/pages/UsuariosPage.tsx:393-397 | "next" moves on one page unless disabled, keeping an in-range page in range |
| `UsuariosPage.Usuarios.ResetForm` | src/pages/UsuariosPage.tsx:84-96 | all fields empty with `ativo` true, not editing, no recorded account, form hidden |
| `UsuariosPage.Usuarios.NewUsuario` | src/pages/UsuariosPage.tsx:98-101 | a reset form, shown |
| `UsuariosPage.Usuarios.EditUsuario` | src/pages/UsuariosPage.tsx:103-115 | the form gets `nome`, `email`, `cpf`, `telefone` and `ativo` from the account, an empty password; editing is on, the account recorded, the form shown |
| `UsuariosPage.Usuarios.InputChange` | src/pages/UsuariosPage.tsx:117-123 | the form becomes the old form with the one change applied |
| `UsuariosPage.Usuarios.Submit` | src/pages/UsuariosPage.tsx:125-151 | the request is the one `SubmitRequest` builds. With a required field missing, nothing changes and the warning is shown. A failed save changes nothing and shows an error. A successful save shows "updated" or "created" and resets the form |
| `UsuariosPage.Usuarios.SubmitButton` | src/pages/UsuariosPage.tsx:125-151 | a click sends what `SubmitClick` gives: an invalid form changes nothing and shows no alert; otherwise the outcomes of `handleSubmit` |
| `LoginPage.FirstMatch` | src/pages/LoginPage.tsx:24 | the position `find` stops at: the first account whose `email` and `senha` equal the inputs, or none when no account matches |
| `LoginPage.LoginFormValid` | src/pages/LoginPage.tsx:79-83 | the browser's `required` checks on the two login inputs: both non-empty |
| `LoginPage.Matches` | src/pages/LoginPage.tsx:24 | the `find` predicate: exact, case-sensitive equality of both `email` and `senha` |
| `LoginPage.FindUser` | src/pages/LoginPage.tsx:24 | the account found is in the list and matches exactly; none is found exactly when no account matches |
| `LoginPage.FindUserIsFirst` | src/pages/LoginPage.tsx:24 | if the account at position i matches, an account at position i or earlier is found |
| `LoginPage.EmailIsCaseSensitive` | src/pages/LoginPage.tsx:24 | an e-mail typed in different case does not match |
| `LoginPage.BlankAccountNeverLogsIn` | src/pages/LoginPage.tsx:79-83 | with both inputs required, the account that logs in never has a blank e-mail or password |
| `LoginPage.Login.constructor` | src/pages/LoginPage.tsx:7-9 | not loading, at the login route, no alert shown yet |
| `LoginPage.Login.HandleLogin` | src/pages/LoginPage.tsx:12-38 | a match stores `user_name` = that account's `nome` and `auth` = "true" and goes to /dashboard. No match stores nothing, stops loading and shows the invalid-credentials alert. A failed fetch stores nothing, stops loading and shows the distinct connection alert. `lastAlert` records the last alert shown, so a success leaves an earlier one recorded |
| `LoginPage.Login.SubmitButton` | src/pages/LoginPage.tsx:76-87 | a click with an empty input changes nothing; otherwise a match stores the session, goes to /dashboard, stays loading and keeps the last alert, and a miss or a failed fetch stores nothing, stops loading and shows its alert |

## Left out

- Dialogs, HTML templates, styling, the hint-balloon timers and the kiosk preview iframe of the dashboard: presentation only.
- The HTTP transport (axios, `src/services/api.ts`), the multipart upload itself and the reload after each mutation: responses, the upload URL and the success of a save are parameters.
- The 3.5 s minimum loading time and `Promise.all` of the login, the form's fade timers (`openForm`, `closeForm`), and races between overlapping reloads. These are timing and concurrency. A successful submit applies `resetForm` at once instead of after `closeForm`'s delay.
- Routing, the sidebar and `localStorage.clear()` on logout (`src/App.tsx`): router plumbing. The dashboard's greeting read of `user_name` is display only.
- `handleDeletarUsuario`: it is a confirmation dialog followed by one DELETE call, with no list logic.
- The error alerts of `loadUsuarios` and of failed playlist saves: the outcome types carry the alerts the handlers choose between, not their texts.
- `Text.Lower`: lower-casing is ASCII only; Unicode case mapping is not modelled.
- `Text.Trim`: it strips the ECMAScript WhiteSpace and LineTerminator code points it lists; Unicode space separators outside that list are not modelled.
- `DashboardPage.AddVideo`: the duration is taken as an already-parsed integer. An unparsable duration, which the code would store as NaN, is not represented.
- `DashboardPage.ConfirmEdit`: `parseInt` is not modelled. The dialog's seconds arrive as an optional integer, with None standing for NaN.
- `DashboardPage.SortByPosicao`: stability is not stated. JavaScript's sort keeps records with equal `posicao` in fetched order; the contract says only sorted and a permutation.
- `DashboardPage.Dashboard.LoadPlaylist`: the same gap. The stored playlist is stated to be sorted and a permutation of the fetched one, not that records with equal `posicao` keep their fetched order.
- `DashboardPage.SumDuracao`: sums are unbounded integers. JavaScript numbers lose precision above 2^53.
- `UsuariosPage.ApplyChange`: a change event names one of the form's five text inputs or its single checkbox. The code's dynamic `[name]` key, which could add a new key, is not modelled.
- The edit dialog interpolates `chave` and the file name into HTML attribute values; a value containing a quote would be cut short there. The model takes the dialog's values as given.
- `UsuariosPage.FormValid`: the browser's `type="email"` syntax check on the e-mail input (`UsuariosPage.tsx:237`) is not modelled, so a malformed address passes as if the browser accepted it.
- `LoginPage.LoginFormValid`: the same `type="email"` check on the login e-mail (`LoginPage.tsx:79`) is not modelled; only the `required` checks are.
