# Exam dashboard core, modelled in Dafny

The dashboard lists exams in a paged table, opens a detail modal for one exam,
validates sign-up data on the back end, derives usernames, and keeps a login
session in the browser. This project models the six pieces of that system
whose behaviour is fixed by guards and loops, and proves what they promise.

- `pagination.dfy` (module `Pagination`): the pager's page-indicator list,
  built by a loop (`GetPageNumbers`) and specified by `PageIndicators`; the
  prev/next targets; hiding the pager when there is one page or none.
- `examenes_table.dfy` (module `ExamenesTable`): the page count and the page
  slice (with JavaScript `slice` semantics, negative indices included), the
  table's page/selection/modal state as a class, and the pure classifiers
  `formatDuration`, `getStatusColor` and `getGradeColor`.
- `exam_detail_modal.dfy` (module `ExamDetailModal`): the modal's own copies
  of the duration and status helpers, the grade tiering on a 0–10 grade, the
  pass/fail label and the fallback labels.
- `serializers.dfy` (module `Serializers`): the email-shape check, the
  password policy (both copies) and the terms check, with `Err(message)`
  standing for a raised `ValidationError`.
- `funciones.dfy` (module `Funciones`): username generation and text
  normalisation, on ASCII text.
- `auth_context.dfy` (module `AuthContext`): the session provider as a class
  holding `user`, `token`, `loading` and the `localStorage` map. Each
  operation takes the network outcome as an argument.
- Shared helpers: `wrappers.dfy` (`Option`, `Result`), `text.dfy` (ASCII case
  mapping, Python's `strip`, decimal printing and parsing, substring search)
  and `types_table.dfy` (the exam record and the badge colours).

The source's `handlePageChange` stores the requested page as it is. It does
not clamp the page to `[1, totalPages]`, and `TableState.HandlePageChange`
stores any page. `ExamenesTable.NonPositivePage` and
`ExamenesTable.PageEmptyIffPastLast` then state what a page outside that
range shows.

## Model

| member | source | states |
|---|---|---|
| Pagination.PageIndicators | src/components/tables/pagination/Pagination.tsx:34-49 | the specification of the pager list: it always opens with page 1 and, for more than one page, closes with the last page |
| Pagination.GetPageNumbers | src/components/tables/pagination/Pagination.tsx:20-52 | the loop-built list equals the specification `PageIndicators`: page 1, a leading `...` when `c-2 > 2`, the pages `max(2,c-2)..min(T-1,c+2)`, then a trailing `...` and T, or just T when T > 1 |
| Pagination.Render | src/components/tables/pagination/Pagination.tsx:14-17 | nothing is produced exactly when `totalPages <= 1`; otherwise the indicator list is shown |
| Pagination.PrevTarget | src/components/tables/pagination/Pagination.tsx:61 | the previous-page target is `c-1` from page 2 on and 1 otherwise, so it is never below 1 |
| Pagination.NextTarget | src/components/tables/pagination/Pagination.tsx:68 | the next-page target is `c+1` below the last page and T otherwise, so it is never past T |
| Pagination.PrevNextInRange | src/components/tables/pagination/Pagination.tsx:60-69 | for `1 <= c <= T` the targets `max(c-1,1)` and `min(c+1,T)` lie in `[1,T]`; prev leaves the page unchanged exactly when it is disabled (c = 1), and next exactly when it is disabled (c = T) |
| Pagination.IndicatorAt | src/components/tables/pagination/Pagination.tsx:34-49 | the length of the list, and which entry sits at each position: 1, the dots, the window pages in order, the trailing dots, T |
| Pagination.IndicatorsEnds | src/components/tables/pagination/Pagination.tsx:34-49 | for T ≥ 2 the list starts with page 1 and ends with page T |
| Pagination.IndicatorsLength | src/components/tables/pagination/Pagination.tsx:21-49 | the list never has more than `2·delta + 5 = 9` entries |
| Pagination.IndicatorsIncreasing | src/components/tables/pagination/Pagination.tsx:26-49 | the page numbers strictly increase along the list, so none repeats |
| Pagination.IndicatorsCoverage | src/components/tables/pagination/Pagination.tsx:26-32 | a page appears exactly when it is 1, T, or inside the window `[max(2,c-2), min(T-1,c+2)]` |
| Pagination.IndicatorsShowNeighbourhood | src/components/tables/pagination/Pagination.tsx:26-32 | every page of `[1,T]` within distance 2 of the current page, the current page included, appears |
| Pagination.DotsPlacement | src/components/tables/pagination/Pagination.tsx:35-46 | a `...` follows 1 iff `c-2 > 2`, and a `...` precedes T iff `c+2 < T-1` |
| Pagination.NeighboursConsecutive | src/components/tables/pagination/Pagination.tsx:26-49 | two page buttons with no marker between them are consecutive pages |
| Pagination.DotsMarkGaps | src/components/tables/pagination/Pagination.tsx:26-49 | a `...` always stands between two page buttons that differ by at least 2, so it hides at least one page |
| Pagination.IndicatorsInRange | src/components/tables/pagination/Pagination.tsx:26-49 | every page button lies in `[1,T]` |
| Pagination.IndicatorsExamples | src/components/tables/pagination/Pagination.tsx:21-49 | c = 5, T = 10 gives `1 … 3 4 5 6 7 … 10`, and c = 2, T = 3 gives `1 2 3` |
| Pagination.PastLastPageExample | src/components/tables/pagination/Pagination.tsx:26-49 | with page 5 of 2 the list is `1 … 2`: the marker stays although the window is empty |
| ExamenesTable.TotalPages | src/components/tables/ExamenesTable.tsx:65-68 | the page count is the least r with `5r ≥ n`, i.e. `ceil(n/5)`, which is 0 for an empty list |
| ExamenesTable.JsSlice | src/components/tables/ExamenesTable.tsx:72 | `slice` keeps at most the whole list, and for `0 <= start <= end` it is the ordinary slice between the two indices cut at the length |
| ExamenesTable.PageSlice | src/components/tables/ExamenesTable.tsx:69-73 | the rows of any page, the non-positive ones included, are at most 5 |
| ExamenesTable.PageSliceWindow | src/components/tables/ExamenesTable.tsx:69-73 | for page p ≥ 1 the slice is the elements `[(p-1)·5, min(p·5, n))`, at most 5 of them |
| ExamenesTable.PageEmptyIffPastLast | src/components/tables/ExamenesTable.tsx:69-73 | for p ≥ 1 the slice is empty, which shows the empty-state row, iff p is beyond the page count |
| ExamenesTable.NonPositivePage | src/components/tables/ExamenesTable.tsx:69-73 | page 0 shows nothing; a negative page counts its slice from the end of the list, as `slice` does with negative indices |
| ExamenesTable.PagesUpToPrefix | src/components/tables/ExamenesTable.tsx:69-73 | the slices of pages 1..k, joined, are the first `min(5k, n)` exams |
| ExamenesTable.PagesCoverAll | src/components/tables/ExamenesTable.tsx:68-73 | joining the slices of pages 1..totalPages gives back the whole list in order |
| ExamenesTable.PagerLeadsToFilledPages | src/components/tables/ExamenesTable.tsx:68-73 | for a current page in range, every page button and the prev/next targets lead to a non-empty slice |
| ExamenesTable.TableState.constructor | src/components/tables/ExamenesTable.tsx:62-64 | the table starts on page 1 with no selection and the modal closed |
| ExamenesTable.TableState.PageCount | src/components/tables/ExamenesTable.tsx:68 | `totalPages` is the least count of five-row pages that holds every exam |
| ExamenesTable.TableState.PaginatedExamenes | src/components/tables/ExamenesTable.tsx:69-73 | the rows shown are at most 5; on a page p ≥ 1 they are empty, so the empty-state row shows, iff p is past `totalPages`; page 0 shows nothing |
| ExamenesTable.TableState.HandlePageChange | src/components/tables/ExamenesTable.tsx:75-77 | the requested page is stored unchanged, with no clamping; selection and modal are untouched; the rows shown become that page's slice and the page count stays |
| ExamenesTable.TableState.HandleViewDetails | src/components/tables/ExamenesTable.tsx:79-82 | the exam is selected and the modal opens; the page and the rows shown are untouched |
| ExamenesTable.TableState.HandleCloseModal | src/components/tables/ExamenesTable.tsx:84-87 | the modal closes and the selection is cleared; the page and the rows shown are untouched |
| ExamenesTable.FormatDuration | src/components/tables/ExamenesTable.tsx:31-39 | the text is `N/A` exactly for a missing or zero duration; otherwise it starts with a digit and ends in `m` |
| ExamenesTable.FormatDurationRoundTrip | src/components/tables/ExamenesTable.tsx:31-39 | for m > 0 the text reads back as `60·h + mins` with `mins < 60`, so it gives exactly m minutes; both numbers are plain decimals with no leading zero, so `1h 5m` and not `1h 05m` |
| Text.DecimalTextUnique | src/components/tables/ExamenesTable.tsx:33-38 | a numeral that reads back as a number is exactly that number's printed form, so a leading zero or other padding never passes the read-back |
| ExamenesTable.FormatDurationAbsent | src/components/tables/ExamenesTable.tsx:31-32 | the text is `N/A` exactly when the duration is missing or 0, and `N/A` reads back as no duration |
| ExamenesTable.FormatDurationShowsHours | src/components/tables/ExamenesTable.tsx:33-38 | for m > 0 the text has an hours part iff m ≥ 60 |
| ExamenesTable.StatusColor | src/components/tables/ExamenesTable.tsx:42-52 | the colour is never "info", and a missing or empty status is "error" |
| ExamenesTable.StatusColorIgnoresCase | src/components/tables/ExamenesTable.tsx:42-52 | the status colour does not depend on letter case |
| ExamenesTable.StatusColorAbsent | src/components/tables/ExamenesTable.tsx:42-43 | a missing or empty status is "error" |
| ExamenesTable.StatusColorFinishedExample | src/components/tables/ExamenesTable.tsx:44-47 | example: `Examen Aprobado` is "success" |
| ExamenesTable.StatusColorPrecedence | src/components/tables/ExamenesTable.tsx:44-49 | a status whose lower-cased text contains `completado`, `finalizado` or `aprobado` is "success", whatever in-progress words it also holds |
| ExamenesTable.StatusColorInProgress | src/components/tables/ExamenesTable.tsx:48-49 | a status whose lower-cased text contains `pendiente`, `en curso` or `progreso` and none of the finished words is "warning" |
| ExamenesTable.StatusColorNoWord | src/components/tables/ExamenesTable.tsx:51 | a status whose lower-cased text contains none of the six words is "error" |
| ExamenesTable.StatusColorInProgressExample | src/components/tables/ExamenesTable.tsx:48-49 | example: `En Progreso` is "warning" |
| ExamenesTable.StatusColorUnknownExample | src/components/tables/ExamenesTable.tsx:51 | example: `Cancelado` is "error" |
| ExamenesTable.GradeColor | src/components/tables/ExamenesTable.tsx:55-59 | the colour is never "info", and success needs at least 70 |
| ExamenesTable.GradeColorMonotone | src/components/tables/ExamenesTable.tsx:55-59 | the colour never gets worse as the percentage grows, and is never "info" |
| ExamenesTable.GradeColorThresholds | src/components/tables/ExamenesTable.tsx:55-59 | for every percentage p: p ≥ 70 is success, 50 ≤ p < 70 is warning, p < 50 is error |
| ExamDetailModal.FormatDuration | src/components/tables/modals/ExamDetailModals.tsx:20-28 | the modal's `formatDuration` gives the table's result on every input |
| ExamDetailModal.StatusColor | src/components/tables/modals/ExamDetailModals.tsx:30-41 | the modal's `getStatusColor` gives the table's result on every input |
| ExamDetailModal.GradeColor | src/components/tables/modals/ExamDetailModals.tsx:44-52 | an unparsable grade is "info", and "success" needs a parsed grade of at least 9 |
| ExamDetailModal.GradeColorThresholds | src/components/tables/modals/ExamDetailModals.tsx:48-51 | for every parsed grade g: g ≥ 9 is success, 7 ≤ g < 9 is info, 5 ≤ g < 7 is warning, g < 5 is error |
| ExamDetailModal.GradeColorMonotone | src/components/tables/modals/ExamDetailModals.tsx:48-51 | among parsed grades the tier never drops as the grade grows |
| ExamDetailModal.ResultLabel | src/components/tables/modals/ExamDetailModals.tsx:212 | the label is `Aprobado` or `Reprobado`, and an unparsable grade gives `Reprobado` |
| ExamDetailModal.ResultLabelPasses | src/components/tables/modals/ExamDetailModals.tsx:212 | the label is `Aprobado` iff the grade parses and is ≥ 7, otherwise `Reprobado` |
| ExamDetailModal.ColorAgreesWithLabel | src/components/tables/modals/ExamDetailModals.tsx:44-52 | a success tier goes with `Aprobado`, a warning or error tier with `Reprobado` |
| ExamDetailModal.EstadoLabel | src/components/tables/modals/ExamDetailModals.tsx:93 | the estado label is never blank |
| ExamDetailModal.AreaLabel | src/components/tables/modals/ExamDetailModals.tsx:101 | the area label is never blank |
| ExamDetailModal.NivelLabel | src/components/tables/modals/ExamDetailModals.tsx:109 | the nivel label is never blank |
| ExamDetailModal.EmailLabel | src/components/tables/modals/ExamDetailModals.tsx:241 | the email label is never blank |
| ExamDetailModal.LabelsFallBack | src/components/tables/modals/ExamDetailModals.tsx:93-109 | a missing or empty estado, area or nivel shows `Sin estado`, `Sin área` or `Sin nivel`, and a present name shows itself; no label is empty |
| ExamDetailModal.EmailFallsBack | src/components/tables/modals/ExamDetailModals.tsx:241 | a missing or empty email shows `Sin email registrado`, and a present one shows itself |
| ExamDetailModal.MissingStatusIsError | src/components/tables/modals/ExamDetailModals.tsx:93 | an exam without a status is labelled `Sin estado` and its badge is "error" |
| Serializers.PasswordValidator | core/serializers.py:14-25 | an accepted password comes back unchanged and has at least 8 characters; a refused one carries one of the five policy messages |
| Serializers.PasswordAcceptedIffAllRules | core/serializers.py:13-25 | a password is accepted iff it has at least 8 characters, an uppercase letter, a lowercase letter, a digit and a special character, and it comes back unchanged |
| Serializers.PasswordFirstFailureWins | core/serializers.py:15-24 | when rule k is the first rule, in the order length, upper, lower, digit, special, that fails, the error is rule k's message |
| Serializers.ValidatePassword | core/serializers.py:34-45 | the serializer's `validate_password` gives the validator's result on every input |
| Serializers.PasswordExamples | core/serializers.py:15-25 | a short password gets the length message, a long one without an uppercase letter the uppercase message, and a compliant one is accepted |
| Serializers.ValidateTerms | core/serializers.py:47-50 | the terms value is accepted iff it is true, and returned unchanged; a false value gets the terms message |
| Serializers.EmailValidator | core/serializers.py:8-11 | an accepted address comes back unchanged and holds an `@`; a refused one carries the invalid-email message |
| Serializers.MatchesPatternIffShape | core/serializers.py:9 | the scanning matcher accepts exactly the strings of the form local `@` label `.` rest, over the three character classes |
| Serializers.EmailValidatorAccepts | core/serializers.py:8-11 | an address is accepted iff it has that form, or has it once one final newline is dropped; it is returned unchanged, otherwise the error is the invalid-email message |
| Serializers.AcceptedEmailFacts | core/serializers.py:9-11 | an accepted address has exactly one `@`, no `.` right after it, and only ASCII characters |
| Serializers.EmailAcceptedExample | core/serializers.py:9-11 | `ana@uni.edu` is accepted |
| Serializers.EmailTrailingNewlineExample | core/serializers.py:9-11 | `ana@uni.edu` followed by a newline is accepted too |
| Serializers.EmailNoDotRejected | core/serializers.py:9-10 | `ana@edu`, whose domain has no dot, is refused |
| Serializers.EmailEmptyLocalRejected | core/serializers.py:9-10 | `@uni.edu`, with an empty local part, is refused |
| Serializers.EmailEmptyLabelRejected | core/serializers.py:9-10 | `ana@.edu`, with an empty first domain label, is refused |
| Funciones.GenerarUsername | core/funciones.py:4-20 | for a non-empty first name the result is its lower-cased first letter, the lower-cased surname, then its lower-cased last letter, so it has length `|apellido| + 2` and no uppercase letter; an empty first name gives `user_default_` followed by count + 1 as a plain decimal with no leading zero |
| Funciones.FallbackNamesDistinct | core/funciones.py:16-20 | different counts of existing default accounts give different fallback names |
| Funciones.UsernameIgnoresCase | core/funciones.py:12-14 | upper-casing both names does not change the username |
| Funciones.OneLetterNameFramesUsername | core/funciones.py:14 | with a one-letter first name the username starts and ends with the same letter |
| Funciones.UsernameExample | core/funciones.py:7-15 | `OSCAR`, `MORAN` gives `omoranr` |
| Funciones.NormalizarTexto | core/funciones.py:22-29 | the result is the upper-cased text between stripped leading and trailing whitespace; it has no whitespace at either end and no lowercase letter |
| Funciones.NormalizarIdempotent | core/funciones.py:27 | normalising a normalised text changes nothing |
| AuthContext.RequestHeaders | src/components/auth/AuthContext.tsx:120-127 | the sent headers are the caller's plus `Authorization: Bearer <token>` and `Content-Type: application/json`, and a caller's header overrides a default one |
| AuthContext.Restored | src/components/auth/AuthContext.tsx:39-46 | a stored session is loaded exactly when `authToken` is a non-empty text and `userData` is present, and then both come from storage |
| AuthContext.SessionSurvivesReload | src/components/auth/AuthContext.tsx:39-46 | a session with a non-empty token, mirrored in storage, is restored exactly on reload |
| AuthContext.EmptyTokenNotRestored | src/components/auth/AuthContext.tsx:43 | a session with an empty token is not restored, since `''` is falsy |
| AuthContext.IsAuthenticated | src/components/auth/AuthContext.tsx:147 | `isAuthenticated` holds exactly when a user is present |
| AuthContext.IsAdmin | src/components/auth/AuthContext.tsx:148 | `isAdmin` needs a signed-in user, so it is false without one |
| AuthContext.IsModerator | src/components/auth/AuthContext.tsx:149 | `isModerator` needs a signed-in user and holds for every administrator |
| AuthContext.FlagsNested | src/components/auth/AuthContext.tsx:147-149 | an admin is a moderator, a moderator is signed in, and a moderator who is not an admin has role `moderator` |
| AuthContext.FlagsByRole | src/components/auth/AuthContext.tsx:148-149 | `isAdmin` holds iff a user with role `admin` is signed in, and `isModerator` iff a user with role `moderator` or `admin` is |
| AuthContext.AuthProvider.constructor | src/components/auth/AuthContext.tsx:34-36 | the provider starts with no user or token, loading, over the browser's storage |
| AuthContext.AuthProvider.Restore | src/components/auth/AuthContext.tsx:39-48 | the stored session is loaded only when both entries are truthy, otherwise the state stays; loading is false afterwards and storage is unchanged |
| AuthContext.AuthProvider.Login | src/components/auth/AuthContext.tsx:50-77 | the request carries `Token <current token>`; success iff the answer is 2xx, and then token and user are set and both keys written; otherwise nothing changes and the error is `Credenciales inválidas`, or the thrown error's message, or `Error desconocido` |
| AuthContext.AuthProvider.Logout | src/components/auth/AuthContext.tsx:79-97 | the server is told only when a non-empty token is held; user, token and both keys are cleared whatever happens |
| AuthContext.AuthProvider.RefreshUserData | src/components/auth/AuthContext.tsx:99-117 | without a token nothing happens; with one, a 2xx answer replaces the user and its stored copy and keeps the token, and any other outcome changes nothing |
| AuthContext.AuthProvider.AuthenticatedFetch | src/components/auth/AuthContext.tsx:119-137 | the request carries the merged headers; a 401 runs the logout effects and rejects with `Sesión expirada`, a rejected request passes its error on, and any other answer is returned with the state unchanged |
| AuthContext.LoginSurvivesReload | src/components/auth/AuthContext.tsx:39-73 | after a successful login with a non-empty token, a fresh provider over the same storage restores the same token and user |

Every method of `AuthContext.AuthProvider` also keeps `Valid()`. That means
the stored entries are well formed, a token is held exactly when a user is,
and whatever session the provider holds is also what storage holds under
`authToken` and `userData`.

## Left out

- Rendering, CSS classes, icons, the `Badge`/`Modal`/`Button` components and the `useAuth` guard that throws outside the provider are presentation and React glue.
- `formatDate` (locale date formatting) and `toFixed(1)` are library formatting and are not modelled.
- `parseFloat` is not modelled. The modal's classifiers take its result as `Option<real>`, with `None` for `NaN`.
- ExamenesTable.GradeColor: the percentage is an exact real; floating-point rounding and a `NaN` percentage are not modelled.
- ExamenesTable.FormatDuration: durations are natural numbers of minutes. Negative and fractional durations, where JavaScript's `%` and `Math.floor` differ from Dafny's, are not modelled. Numbers are printed as plain decimals; JavaScript's exponent form from 10^21 on (`1e+21`) is not modelled.
- ExamenesTable.StatusColorIgnoresCase: case is ASCII only. JavaScript's `toLowerCase` on non-ASCII letters is not modelled.
- Serializers.EmailValidatorAccepts: the character classes are the ASCII ones.
- Serializers.PasswordValidator: Python's Unicode `\d` in the digit rule also matches non-ASCII decimal digits; the model counts ASCII digits only.
- Funciones.GenerarUsername: `lower` maps ASCII letters only. The database count of `user_default_` accounts is a parameter, and errors other than indexing an empty first name, such as a non-string argument, are not modelled.
- Funciones.NormalizarTexto: `unidecode` is the identity on ASCII, so the model covers ASCII text only. `strip` and `upper` are their ASCII behaviours.
- AuthContext.AuthProvider.Restore: requires well-formed storage, because a `userData` entry that `JSON.parse` rejects, which makes the effect throw, is not modelled.
- AuthContext.AuthProvider.Login: the login body is taken as well formed, because `response.json()` failing, or a body without `token`/`user`, is not modelled. The credentials sent are not modelled, only the `Authorization` header.
- AuthContext.AuthProvider.AuthenticatedFetch: the logout it starts is not awaited in the source. The model applies its effects at once, and React's batching of state updates and async interleaving are not modelled. Caller headers are a plain map, and `Headers` objects and header arrays are not modelled. The URL and the other request options are passed to `fetch` untouched and are not modelled.
- ExamenesTable.TableState: the exam list is fixed when the table is created. A new `examenes` prop arriving while `currentPage` keeps its value is not modelled; a shorter list can leave the page past the last one, where the table shows the empty-state row and the pager, whose marker lemmas assume `c <= T`, can show a `...` that hides no page (page 5 of 2 gives `1 … 2`).
- `fetch`, `localStorage` and `console` are I/O. Their outcomes are parameters, storage is a map, and logging is dropped.
- `validate_email` (a database lookup), `UserPersonaSerializer.create`, the ORM views of `api/` and the Django models are database glue and are not part of this model.
