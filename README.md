# GradeWise core logic, modelled in Dafny

GradeWise is a web application. An instructor uploads a question, a rubric, a
student's response and, optionally, an expected answer. A language model
grades the response, and the graded tests are kept in the browser's local
storage. This project models and proves the sequential logic around those
steps:

- **Text extraction** (`Actions`, `actions.dfy`). The server action
  `extractTextFromDataUri` splits a data URI at its commas. It reads the MIME
  type from a `data:<mime>;base64` header and sends the payload to the
  plain-text, PDF or DOCX extractor, or rejects the type. It wraps every
  error raised during that dispatch. `handleGradeSubmission` extracts the
  question, then the response, then the optional expected answer, and calls
  the grading flow. It turns any failure into `{success: false, error}`. The data
  URI syntax of section 3 of RFC 2397 is narrowed here: the media type must
  be non-empty, the `;base64` form is required, and an empty payload is an
  error. A payload that itself contains a comma, which RFC 2397 allows, is
  not rejected: it is cut off at its first comma.
- **Form rules** (`Schemas`, `schemas.dfy`). These are the validity rules of
  the grading form: file size at most 5 MiB, the accepted MIME types of each
  file field, rubric length 20 to 5000, and a maximum score in [1, 100] that
  defaults to 10.
- **Local account store** (`AuthContext`, `auth_context.dfy`). The class
  `AuthStore` holds the stored users list, the session email and the
  in-memory `user` and `loading` state. Its operations are sign-up, sign-in,
  sign-out and session restore at mount.
- **Graded tests** (`GradedTest`, `RecentGradedTests`, `GradedTestsList`,
  `GradedTestsPage`). These hold the stored record and the in-place
  newest-first sort. They also cover the recent-tests card (first
  `maxToShow`, default 3, with "View All"), the full list of cards with
  their delete actions, and the page that loads, deletes by id and clears
  the stored list.

The outside world is passed in as values. The base64 and UTF-8 decoders, the
PDF and DOCX extractors and the grading flow are function parameters
(`Actions.Extractors` and the `grade` parameter). Each local-storage key is
a field. Its value is absent, a parsed list, or text that does not parse
(`Corrupt`). The `Corrupt` case stands for the `JSON.parse` failure paths.
Grading dates are integer timestamps.

## Model

| member | source | states |
|---|---|---|
| `Actions.Split` | src/app/actions.ts:65 | `split(',')` always gives at least one segment. No segment holds a comma, and joining the segments with commas gives back the input. |
| `Actions.SplitJoin` | src/app/actions.ts:65 | Split undoes Join on comma-free segments, so the segments are determined uniquely. |
| `Actions.SplitAfterFirst` | src/app/actions.ts:65 | The text before the first comma is the first segment. The remaining segments are the split of the text after that comma. |
| `Actions.SplitNoSeparator` | src/app/actions.ts:65 | A string without a comma is a single segment. |
| `Actions.NoCommaIsInvalid` | src/app/actions.ts:65-68 | A URI without a comma fails with exactly 'Invalid data URI format', which is not wrapped. |
| `Actions.EmptyHeaderIsInvalid` | src/app/actions.ts:65-68 | A URI whose header segment is empty fails with 'Invalid data URI format'. |
| `Actions.EmptyPayloadIsInvalid` | src/app/actions.ts:65-68 | An empty payload after the first comma fails with 'Invalid data URI format', even when more segments follow. |
| `Actions.SecondCommaIgnored` | src/app/actions.ts:65 | Whatever follows a second comma has no effect on the result. |
| `Actions.MimeType` | src/app/actions.ts:70-74 | A captured MIME type is the non-empty middle of `data:<mime>;base64` and contains no line terminator. |
| `Actions.MimeTypeOfHeader` | src/app/actions.ts:70-74 | Conversely, every such header yields exactly its middle part. |
| `Actions.GreedyCapture` | src/app/actions.ts:70 | `data:a;b;base64` yields the MIME type `a;b`. |
| `Actions.BadHeaderFails` | src/app/actions.ts:70-73 | Any other header fails with exactly 'Could not extract MIME type from data URI', which is not wrapped. |
| `Actions.Dispatch` | src/app/actions.ts:77-90 | `text/plain` is decoded as UTF-8 and never fails. Only `text/plain`, PDF and DOCX can succeed. `application/msword` fails with the `.doc` message and every other type with the unsupported-type message naming it. |
| `Actions.WrapErrors` | src/app/actions.ts:91-96 | A successful extraction passes through unchanged. A failure is re-thrown with a message that starts with the wrap prefix and the MIME type and ends with the inner message. |
| `Actions.ExtractText` | src/app/actions.ts:64-97 | Every error is one of the two header messages or starts with 'Failed to extract text from file (MIME type: '. |
| `Actions.DispatchCases` | src/app/actions.ts:75-96 | `text/plain` is decoded as UTF-8 and never fails. PDF and DOCX go to their own extractors. `application/msword` fails with the `.doc` message. Every other type fails as unsupported. Each dispatch error is wrapped with the MIME type and the inner message. |
| `Actions.HandleGradeSubmission` | src/app/actions.ts:99-122 | The calls are made in the order question, response, expected answer, grading flow, and stop at the first failure. The expected answer is extracted only when its URI is present and non-empty. The grading flow is called exactly when every extraction succeeds. It receives the extracted texts and the rubric unchanged, and no expected text when none was given. The result is `Success` exactly when the grading flow also succeeds. Otherwise it is `Failure` with the first thrown message, or the unknown-error text when a non-Error was thrown. |
| `Schemas.ParseMaxScore` | src/lib/schemas.ts:39-46 | An absent maximum score becomes 10. A given one is accepted iff 1 ≤ x ≤ 100, and is then kept unchanged. |
| `Schemas.ValidQuestionFile` | src/lib/schemas.ts:16-22 | The question file is valid iff it is present, at most 5242880 bytes, and of type `application/pdf` or the DOCX type. |
| `Schemas.ValidResponseFile` | src/lib/schemas.ts:24-30 | The response file is valid iff it is present, at most 5242880 bytes, and a PDF, DOCX or `text/plain`. |
| `Schemas.ValidExpectedFile` | src/lib/schemas.ts:31-38 | The expected-answer file is valid iff it is absent or valid by the response file's rules. |
| `Schemas.ValidRubric` | src/lib/schemas.ts:23 | The rubric is valid iff its length is between 20 and 5000, both inclusive. |
| `Schemas.ValidForm` | src/lib/schemas.ts:15-47 | An accepted form has a question file that is not plain text and a response file. Every file it has is at most 5 MiB, the rubric holds 20 to 5000 characters, and the parsed maximum score lies in [1, 100]. |
| `Schemas.QuestionStricterThanResponse` | src/lib/schemas.ts:5-13 | Every valid question file is a valid response file. A plain-text file within the size limit is a valid response but not a valid question. |
| `Schemas.SizeBoundInclusive` | src/lib/schemas.ts:16-38 | For every file field and every accepted type, 5242880 bytes are accepted and 5242881 bytes are rejected. |
| `Schemas.ExpectedLikeResponse` | src/lib/schemas.ts:31-38 | An absent expected-answer file is valid. A present one is valid iff it would be valid as the response. |
| `Schemas.RubricBounds` | src/lib/schemas.ts:23 | Rubrics of length 20 and 5000 are valid. Shorter or longer ones are not. |
| `AuthContext.FindUser` | src/contexts/AuthContext.tsx:73 | Finds nothing iff no stored user has the email. Otherwise it returns the first stored user with that email. |
| `AuthContext.Parsed` | src/contexts/AuthContext.tsx:47 | An absent users key reads as the empty list, a stored list as itself, and only unparsable text fails. |
| `AuthContext.SignUpKeepsDistinct` | src/contexts/AuthContext.tsx:100-107 | Appending a user whose email is not yet stored keeps the stored emails pairwise distinct. |
| `AuthContext.SignInMatchesStoredPair` | src/contexts/AuthContext.tsx:73-75 | With distinct emails, the sign-in check accepts exactly the stored (email, password) pairs. A record stored without a password never passes it. |
| `AuthContext.AuthStore.constructor` | src/contexts/AuthContext.tsx:37-38 | The provider starts with no user and `loading` set. |
| `AuthContext.AuthStore.Restore` | src/contexts/AuthContext.tsx:41-62 | When the session email is non-empty and names a stored user, that user (email only) becomes active. A non-empty session naming nobody, or read next to an unparsable list, is removed. An empty or absent session changes nothing. From a fresh state, a user is set iff a match was found. The users list is unchanged and `loading` ends false. |
| `AuthContext.AuthStore.SignIn` | src/contexts/AuthContext.tsx:68-92 | Returns true iff the first stored user with the email has that password. A first match stored without a password always fails. On success the user becomes `{email}` and the session key becomes the email. On failure the user, the session and the list are unchanged. `loading` ends false. |
| `AuthContext.AuthStore.SignUp` | src/contexts/AuthContext.tsx:94-119 | Returns false and changes nothing when the email is already stored or the list does not parse. Otherwise it stores the list with exactly one `{email, password}` appended and returns true. The user and the session never change. Distinct emails stay distinct. `loading` ends false. |
| `AuthContext.AuthStore.SignOut` | src/contexts/AuthContext.tsx:121-132 | Clears the user and removes the session key. The users list stays. `loading` ends false. |
| `GradedTest.SortNewestFirst` | src/components/grading/RecentGradedTests.tsx:19 | Sorts the array in place. Afterwards it is in non-increasing `gradingDate` order and is a permutation of its old contents. |
| `GradedTest.CutIsOrdered` | src/components/grading/RecentGradedTests.tsx:19-20 | Cutting a newest-first list leaves a newest-first prefix. Nothing after the cut is newer than anything before it. |
| `RecentGradedTests.View` | src/components/grading/RecentGradedTests.tsx:18-86 | The empty-state card is shown iff the slice is empty, which includes `maxToShow = 0`. A listing shows the slice. "View All (n)" appears iff `tests.length > maxToShow`, with n = `tests.length`. The fallback paragraph never renders. |
| `RecentGradedTests.MaxToShow` | src/components/grading/RecentGradedTests.tsx:17 | An absent `maxToShow` is 3. A given one is kept. |
| `RecentGradedTests.SliceEnd` | src/components/grading/RecentGradedTests.tsx:20 | `slice(0, end)` keeps at most the whole list. A non-negative end keeps `end` items, or all of them when `end` reaches the length. A negative end drops `-end` items from the back, or everything when `-end` reaches the length. |
| `RecentGradedTests.ShownCount` | src/components/grading/RecentGradedTests.tsx:17-20 | With a non-negative bound, the number of tests listed is min(tests.length, maxToShow). |
| `RecentGradedTests.RecentGradedTests` | src/components/grading/RecentGradedTests.tsx:17-20 | `maxToShow` defaults to 3. The caller's array is itself left sorted newest first and permuted. The card is rendered from it. |
| `RecentGradedTests.ShownAreNewest` | src/components/grading/RecentGradedTests.tsx:19-20 | The listed tests are newest first. Every input test left out was graded no later than every listed test. |
| `GradedTestsList.CardFor` | src/components/graded-tests/GradedTestsList.tsx:58-134 | A card's confirmed delete passes the card's own `test.id`. The comments section is present iff `instructorComments` is a non-empty string. |
| `GradedTestsList.CardsFor` | src/components/graded-tests/GradedTestsList.tsx:57-58 | One card per test, in list order. |
| `GradedTestsList.GradedTestsList` | src/components/graded-tests/GradedTestsList.tsx:42-57 | No tests give the empty state and no cards. Otherwise the prop array is sorted newest first in place and the cards follow its order. |
| `GradedTestsList.CardsArePermutation` | src/components/graded-tests/GradedTestsList.tsx:57 | The cards are newest first and show every input test exactly as often as it occurs. |
| `GradedTestsPage.RemoveId` | src/app/graded-tests/page.tsx:69 | Drops every test with the id. Keeps every other test with its multiplicity and in its original relative order. An absent id leaves the list unchanged. |
| `GradedTestsPage.DeleteThroughCard` | src/components/graded-tests/GradedTestsList.tsx:86 | Deleting through the card at position i removes the test that card shows, and every test sharing its id. |
| `GradedTestsPage.GradedTestsPage.constructor` | src/app/graded-tests/page.tsx:24-25 | The page starts with an empty list and loading set. |
| `GradedTestsPage.GradedTestsPage.Load` | src/app/graded-tests/page.tsx:29-46 | Takes the stored list when the key holds one. Otherwise the list stays as it was. `isLoading` ends false on every path. |
| `GradedTestsPage.GradedTestsPage.DeleteTest` | src/app/graded-tests/page.tsx:67-85 | The filtered list becomes the stored list and the in-memory list, which are the same sequence. |
| `GradedTestsPage.GradedTestsPage.ClearAllTests` | src/app/graded-tests/page.tsx:48-65 | Removes the storage key and empties the list. |
| `GradedTestsPage.GradedTestsPage.Render` | src/app/graded-tests/page.tsx:97-128 | "Clear All Tests" is offered iff the list is non-empty. While loading, the page shows the loading message. Otherwise it shows the list component, which sorts the page's own array in place. |

## Left out

- The base64 and UTF-8 decoders, `pdf-parse`, `mammoth` and the grading flow are not modelled. They are foreign libraries and an external model call, so they are parameters here.
- `getPdfParser` is not modelled. It caches the parser in a module-level promise and sets `PDF_JS_OPTIONS` in the process environment. A failure to load the parser counts as a PDF extractor failure.
- Logging, toasts and the React render and state scheduling are not modelled. Each handler is one atomic step, so the `loading` and `isLoading` values in the middle of a step are not modelled.
- Only an unparsable stored list is modelled as a failure path. A `localStorage.setItem` or `removeItem` that throws is not, so the error branches of the delete and clear-all handlers are left out. Parsed JSON is assumed to be a list of records with a string `email`. The optional `password` field is modelled. Other shapes, such as a non-array value or a record without an email, are not.
- `isAuthError` and `useAuth` are not modelled: one is a dynamic type check and the other only reads the React context.
- `GradedTest.SortNewestFirst`: does not state stability. `Array.prototype.sort` keeps tests with equal dates in their input order; the model promises only the order by date and a permutation.
- `RecentGradedTests.RecentGradedTests`: does not state stability. It sorts with `GradedTest.SortNewestFirst`, so which of several tests with equal dates are listed is not pinned down.
- `GradedTestsList.GradedTestsList`: does not state stability. It sorts with `GradedTest.SortNewestFirst`, so the order of cards for tests with equal dates is not pinned down.
- Dates are integer timestamps. Date parsing and formatting are not modelled, and neither are invalid dates, which give the comparator NaN.
- `Schemas.RubricBounds`: the rubric's length counts Unicode characters, where the source counts UTF-16 code units. The two differ for characters outside the Basic Multilingual Plane.
- `Schemas.ParseMaxScore`: NaN, infinities and non-numeric input are not modelled. The model takes an optional real.
- The field-by-field error messages that the form library reports for files and the rubric are not modelled. Only whether each field is accepted is.
- `maxToShow` is an integer in the model. A fractional, NaN or `null` value is not modelled. Negative values follow the `slice` rules.
- The cards read `test.maxScore`, which the stored record does not declare. Score display is not modelled.
- The home page calls `handleGradeSubmission` with field names that differ from its declared input. The model follows the declared input.
