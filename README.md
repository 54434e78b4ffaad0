# Face enrollment client — a Dafny model

This project models the browser side of a face-recognition enrollment system.

- **Enrollment wizard.** Three steps:
  1. Upload or capture a photo. The backend checks that it shows a face.
  2. Fill in an identity form. The form is validated, then submitted with the photo.
  3. Show the enrolled record.
- **Management screen.** Lists the enrolled users. It can search them, delete a user through the backend, toggle a user's status on the page, and shows four counters.
- **Backend client.** Builds each request (method, URL, multipart or JSON body). A reply outside 2xx is an error, and the user list is post-processed.
- **Mock recognizer.** An in-browser stand-in for face recognition. It keeps a registry of enrolled faces, derives features from a 32-bit string hash, and scores matches by mean similarity against a 0.8 threshold.

There is one Dafny module per source file:

| module | models |
|---|---|
| `Api` | `lib/api.ts` |
| `FaceRecognition` | `lib/face-recognition.ts` |
| `ImageUpload` | `components/image-upload.tsx` |
| `UserForm` | `components/user-form.tsx` |
| `ProgressSteps` | `components/progress-steps.tsx` |
| `StatsCards` | `components/stats-cards.tsx` |
| `EnrollPage` | `app/enroll/page.tsx` |
| `ManagePage` | `app/manage/page.tsx` |

Three helper modules hold the JavaScript built-ins these files use:

- `Wrappers` holds `Option` and `Result`.
- `Text` holds `trim`, ASCII `toLowerCase`, `includes`, `split(sep)[0]`, integer `toString` and `charCodeAt`.
- `Lists` holds `filter` and `find`.

The modelling choices:

- **Stateful components are classes.** `ImageUpload`, `UserForm`, `EnrollPage`, `ManagePage` and the recognizer registry are classes whose fields are the component state. Each handler is a method with a `modifies` clause.
- **Async results are parameters.** Every awaited result is a parameter of the handler. This covers the HTTP reply, the file reader's result, the camera grant or refusal, the video element's events, the clock and the base-URL setting.
- **Pure code is functions and lemmas.** Request building, validation, search and counting are functions. The lemmas prove their properties.

Three places where the model follows what the code does rather than what it says or suggests:

- **Base URL.** The code has no built-in default base URL, although its warning says "Using default URL". With the variable unset, URLs start with `undefined` (`Api.BaseUrl`).
- **Gender.** The form only requires gender to be non-empty; the model does not check it against a fixed set of values.
- **Camera activation.** The camera becomes active from the video element's `canplay` event or a resolved `play()`. As written, neither handler is ever attached (see Findings).

## Model

| member | source | states |
|---|---|---|
| Text.Trim | components/user-form.tsx:41-46 | `trim` yields a slice of the input with only whitespace before and after it, that neither starts nor ends with whitespace, and it is empty exactly when the input is blank — so `!s.trim()` is "blank" |
| Text.TrimUnique | components/user-form.tsx:41-46 | any slice with those properties is the trimmed string, so they define `trim` completely |
| Text.ToLowerCase | app/manage/page.tsx:74-77 | lower-casing keeps the length, leaves no capital, and changes each character only by case |
| Text.Includes | app/manage/page.tsx:74-78 | `includes` is true iff the needle occurs at some index |
| Text.BeforeFirst | lib/api.ts:194 | `split("T")[0]` is a prefix free of `T`, ending at the first `T` or at the end |
| Text.BeforeFirstUnique | lib/api.ts:194 | those properties determine the result uniquely |
| Text.IntToStringRoundTrip | lib/api.ts:193 | parsing the string form of an id gives the id back |
| Text.IntToStringInjective | app/manage/page.tsx:88 | different ids have different string forms |
| Text.CanonicalNumeralUnique | lib/api.ts:193 | a numeral with no leading zero and no `-0` is the string form of its value, so `toString` has exactly one spelling per integer |
| Text.Utf16Units | lib/face-recognition.ts:71-72 | a character below U+10000 is the one unit equal to its code, which is no surrogate; any other is a high surrogate and a low surrogate that combine back to its code |
| Text.CodeUnits | lib/face-recognition.ts:71-72 | the `charCodeAt` sequence has between one and two 16-bit units per character |
| Text.CodeUnitsRoundTrip | lib/face-recognition.ts:71-72 | decoding the `charCodeAt` units as UTF-16 gives the string back, so they are its UTF-16 encoding |
| Lists.Filter | app/manage/page.tsx:72-79 | `filter` keeps exactly the elements that pass, in order, with their multiplicities |
| Lists.FilterKeepsAll | app/manage/page.tsx:72-79 | a filter every element passes returns the list unchanged |
| Lists.DisjointFilterCounts | components/stats-cards.tsx:15-16 | two disjoint filters count at most the whole list, and exactly the whole list iff every element passes one |
| Lists.FindFirst | app/manage/page.tsx:108 | `find` returns the first element that satisfies the predicate, and none exists when it returns nothing |
| Lists.AtMostOnceNoDuplicates | lib/face-recognition.ts:50-52 | a list holding each element at most once has no repeats |
| Api.UnsetBaseUrl | lib/api.ts:1-6 | `Api.BaseUrl` and `Api.WarnsAboutBaseUrl`: with the variable unset or empty, the warning is given, and URLs start with `undefined` (unset) or with the path itself (empty) |
| Api.ConfiguredBaseUrl | lib/api.ts:1-6 | with a non-empty base URL there is no warning, it is used verbatim, and the URL of each of the six requests starts with it |
| Api.RequestMethodsAndBodies | lib/api.ts:110-253 | the six request builders: `DetectFaceRequest` posts the single `image` part, `EnrollUserRequest` posts form-data that decodes back to the enrollment data, `GetUsersRequest` and `GetUserByIdRequest` are bodiless GETs, `DeleteUserRequest` a bodiless DELETE, `UpdateUserStatusRequest` a PATCH with a JSON body |
| Api.UserUrlsExtendList | lib/api.ts:175-253 | a user's lookup URL is the list URL followed by `/` and the id, and the status URL is the lookup URL followed by `/status` |
| Api.FixedEndpointsDiffer | lib/api.ts:110-177 | detection, enrollment and the user list go to three different URLs under `<base>/api/` |
| Api.EnrollParts | lib/api.ts:144-152 | the enrollment form-data has exactly the six field names in the backend's order, and the data can be decoded back from it |
| Api.PathParameterDetermined | lib/api.ts:212 | a URL built as prefix + id + suffix determines the id |
| Api.UserUrlsDetermineId | lib/api.ts:210-253 | the delete, status and lookup URLs of two ids coincide iff the ids do |
| Api.DeleteAndLookupUrlsDiffer | lib/api.ts:210-253 | deletion goes to `/api/user/…`, which is never the lookup URL `/api/users/…` |
| Api.Receive | lib/api.ts:97-102 | a reply succeeds iff it arrived with a 2xx status and a parsed body, which is then returned; a non-2xx status is an HTTP error carrying that status, no response is a network error, and a 2xx reply without a parsed body is an invalid-JSON error (this is all `Api.DetectFace`, `Api.EnrollUser` and `Api.DeleteUser` do with their replies) |
| Api.TransformUser | lib/api.ts:191-196 | each user keeps every field except three: `employee_id` is a canonical numeral (no leading zero, no `-0`) that parses back to the id, hence exactly `id.toString()`, `enrollment_date` is the `created_at` text before the first `T`, and `status` is `"active"` |
| Api.TransformUsers | lib/api.ts:191 | the list keeps its length, and each user is transformed in place |
| Api.GetUsers | lib/api.ts:175-207 | `getUsers` fails exactly when the reply does, with the same error; otherwise it copies `success` and `count` and transforms every user, in order |
| ProgressSteps.Classify | components/progress-steps.tsx:25-29 | a step is completed, current or pending iff its id is below, equal to or above the current step |
| ProgressSteps.Render | components/progress-steps.tsx:20-59 | the step rendering: one view per step; a check iff completed; dark text iff not pending; a connector after every step but the last, green iff that step is completed |
| ProgressSteps.AtMostOneCurrent | components/progress-steps.tsx:27 | with distinct ids, at most one step is shown current |
| ProgressSteps.StatusesInOrder | components/progress-steps.tsx:25-29 | with increasing ids, the statuses read completed, then current, then pending |
| ProgressSteps.ConsecutiveCounts | components/progress-steps.tsx:25-29 | for consecutive ids, the completed count is the number of ids below the current step, and the current count is one iff the current step is in range |
| ProgressSteps.NumberedStepsShowOneCurrent | components/progress-steps.tsx:25-29 | for steps numbered 1..n and current step c in range, exactly one step is current and c - 1 are completed |
| StatsCards.ComputeStats | components/stats-cards.tsx:14-22 | total is the list length, and active, inactive and recent are the sizes of the filters of active users, inactive users and users enrolled in the last week; active + inactive ≤ total, with equality iff every status is active, missing or inactive; recent ≤ total |
| StatsCards.LoadedUsersAllActive | lib/api.ts:195 | after a load every user counts as active and none as inactive |
| FaceRecognition.ToInt32 | lib/face-recognition.ts:74 | `hash & hash` yields the signed 32-bit value congruent to the input modulo 2^32 |
| FaceRecognition.HashStepWraps | lib/face-recognition.ts:73-74 | on a 32-bit value, `(h << 5) - h + c` then `hash & hash` is `h*31 + c` wrapped to 32 bits |
| FaceRecognition.HashOfIsWrappedPolynomial | lib/face-recognition.ts:69-75 | the accumulated hash is the base-31 polynomial of the code units, wrapped to 32 bits |
| FaceRecognition.SimpleHash | lib/face-recognition.ts:69-77 | `simpleHash` returns the absolute value of the wrapped polynomial hash, in [0, 2^31] |
| FaceRecognition.FeaturesFromHash | lib/face-recognition.ts:54-58 | the 128 features `FaceRecognition.ExtractFaceFeatures` derives from an image are bytes, starting at the hash modulo 256 and each one more (mod 256) than the previous one |
| FaceRecognition.Similarity | lib/face-recognition.ts:60-67 | the similarity has no value (NaN) iff either feature list is empty |
| FaceRecognition.CalculateSimilarity | lib/face-recognition.ts:60-67 | the loop computes the mean, over the shorter list, of one minus the absolute difference divided by 256 |
| FaceRecognition.SelfSimilarity | lib/face-recognition.ts:60-67 | a non-empty feature list has similarity exactly 1 with itself |
| FaceRecognition.SimilarityBounds | lib/face-recognition.ts:60-67 | between byte-valued feature lists, similarity lies in (0, 1] |
| FaceRecognition.FaceRecognizeManagement.constructor | lib/face-recognition.ts:4 | a new registry is empty |
| FaceRecognition.FaceRecognizeManagement.EnrollFace | lib/face-recognition.ts:13-27 | `enrollFace` stores the image's features, data and timestamp under the id, always reports success, and keeps the insertion order (a new id goes last, a re-enrolled id keeps its place) |
| FaceRecognition.FaceRecognizeManagement.DeleteFace | lib/face-recognition.ts:46-48 | `deleteFace` removes exactly that id and reports whether it was present |
| FaceRecognition.FaceRecognizeManagement.GetEnrolledUsers | lib/face-recognition.ts:50-52 | returns every enrolled id exactly once, in insertion order |
| FaceRecognition.FaceRecognizeManagement.RecognizeFace | lib/face-recognition.ts:29-44 | returns the first id in insertion order whose similarity exceeds 0.8, with that similarity as confidence; returns nothing iff no enrolled face exceeds it |
| FaceRecognition.EnrolledImageMatches | lib/face-recognition.ts:13-44 | the image a user was enrolled with always matches that user's entry |
| FaceRecognition.Singleton.GetInstance | lib/face-recognition.ts:6-11 | the first call creates an empty registry; later calls return the same, unchanged one |
| ImageUpload.UnknownNamesAreOther | components/image-upload.tsx:172-188 | only the five documented error names get their own message category |
| ImageUpload.CameraErrorMessage | components/image-upload.tsx:170-188 | the generic camera message is shown iff the error name is none of the five |
| ImageUpload.CaptureFileName | components/image-upload.tsx:259-260 | a capture is named `camera-capture-<timestamp>.png` |
| ImageUpload.MediaStream.StopTracks | components/image-upload.tsx:199-203 | every track of the stream is stopped |
| ImageUpload.ImageUpload.constructor | components/image-upload.tsx:20-29 | starts with no image, no detection and a closed camera |
| ImageUpload.ImageUpload.OnDrop | components/image-upload.tsx:56-81 | a first file over 10 MiB, no file, or an unread file changes nothing; otherwise it becomes the preview and file, and detection is cleared; the camera is untouched |
| ImageUpload.ImageUpload.StopCamera | components/image-upload.tsx:199-207 | stops the stream's tracks and leaves the same closed camera state whatever came before (idempotent); the image is untouched |
| ImageUpload.ImageUpload.AcquireCamera | components/image-upload.tsx:92-197 | without support, only the "not supported" error is set; otherwise the camera view opens inactive; the preferred stream is used, else the fallback; two refusals show the message for the second error |
| ImageUpload.ImageUpload.AttachVideo | components/image-upload.tsx:134-165 | with the element present, `canplay` or a resolved `play()` activates the camera, and a rejected `play()` reports playback failure |
| ImageUpload.ImageUpload.StartCameraAsWritten | components/image-upload.tsx:92-197 | as written (with the video element rendered only while the camera is active, line 373), the camera is never active after `startCamera` |
| ImageUpload.ImageUpload.StartCamera | components/image-upload.tsx:92-197 | with the video element rendered in the camera view, the camera activates iff a stream was granted, the view is shown and the video can play |
| ImageUpload.ImageUpload.CapturePhoto | components/image-upload.tsx:209-304 | captures iff the camera is active, the context exists, the dimensions are non-zero, the blob is created and it is read; the capture then becomes a PNG file with the timestamped name, the camera closes and the old stream's tracks are stopped; otherwise nothing changes |
| ImageUpload.ImageUpload.HandleConfirm | components/image-upload.tsx:306-347 | with no preview and file, nothing happens; otherwise the detection result sets `faceDetected`, a failed request sets it to false, and the image is handed on iff faces were detected |
| ImageUpload.ImageUpload.ContinueAnyway | components/image-upload.tsx:554-590 | offered only once detection has reported no face; hands on the current image iff there is a preview and a file |
| ImageUpload.ImageUpload.HandleReset | components/image-upload.tsx:350-356 | clears the image and the detection, closes the camera and stops the old stream's tracks |
| ImageUpload.ImageUpload.Unmount | components/image-upload.tsx:34-40 | stops every track of the current stream |
| UserForm.FormData.With | components/user-form.tsx:120 | `{...prev, [field]: value}` sets that field and keeps the others |
| UserForm.CccdError | components/user-form.tsx:41-42 | the CCCD number has an error iff it is not exactly twelve ASCII digits; "required" when blank, "12 digits" otherwise |
| UserForm.RequiredError | components/user-form.tsx:43-46 | a required field has an error iff it is blank (trimmed fields) or empty (others) |
| UserForm.CollectErrors | components/user-form.tsx:39-47 | a field is a key of the error map iff its rule failed, mapped to that message |
| UserForm.Validate | components/user-form.tsx:38-50 | the error map holds exactly the fields whose rule fails, each with its message |
| UserForm.ValidateRules | components/user-form.tsx:41-46 | the rule for each field: CCCD not twelve digits; name or address blank after trimming; gender or birth date empty |
| UserForm.FormValidIff | components/user-form.tsx:49 | the form is valid iff all five rules pass |
| UserForm.PaddedCccdRejected | components/user-form.tsx:42 | a valid number followed by a space is rejected with the "12 digits" message, because the number is not trimmed |
| UserForm.EnrollmentData | components/user-form.tsx:77-84 | the five values are sent verbatim, with the image file |
| UserForm.UserForm.constructor | components/user-form.tsx:25-35 | starts with empty fields and no errors |
| UserForm.UserForm.HandleChange | components/user-form.tsx:119-125 | sets the field; a non-empty error for it becomes ""; nothing else changes |
| UserForm.UserForm.HandleSubmit | components/user-form.tsx:52-117 | errors become those of the data; the request is sent iff the form is valid and a file exists, carrying the data verbatim; the page gets the record iff the backend reports success; the data is never lost and submission always ends |
| EnrollPage.IndicatorShowsStep | app/enroll/page.tsx:15-74 | on each of the three steps the indicator shows exactly one current step and all earlier ones completed |
| EnrollPage.EnrollPage.constructor | app/enroll/page.tsx:22-25 | starts at step 1 with nothing collected |
| EnrollPage.EnrollPage.Header | app/enroll/page.tsx:81-82 | the header shows the step whose id is the current step |
| EnrollPage.EnrollPage.HandleImageUpload | app/enroll/page.tsx:27-31 | keeps the image and file and moves to step 2 |
| EnrollPage.EnrollPage.HandleUserSubmit | app/enroll/page.tsx:33-36 | keeps the record and moves to step 3 from whichever step the page is on, so a reply arriving after the header's Back button still jumps to step 3 |
| EnrollPage.EnrollPage.Back | app/enroll/page.tsx:109 | offered on step 2 only; returns to step 1, keeping the image |
| EnrollPage.EnrollPage.HandleReset | app/enroll/page.tsx:38-43 | returns to step 1 with nothing collected |
| EnrollPage.EnrollPage.ConfirmImage | app/enroll/page.tsx:94 | the wizard reaches step 2 iff the upload had an image and detection found a face, with that image and file; otherwise it stays on step 1 with what it held |
| EnrollPage.EnrollPage.ContinueWithoutFace | app/enroll/page.tsx:94 | offered only after detection reported no face; the override reaches step 2 iff the upload holds an image, taking that image and file; otherwise it stays on step 1 |
| EnrollPage.EnrollPage.SubmitDetails | app/enroll/page.tsx:105-110 | the wizard reaches step 3 iff the form is valid and the enrollment succeeded, holding the form's record; otherwise it stays on step 2 with the image and the previous record kept; the form's data is never changed |
| ManagePage.FilterUsers | app/manage/page.tsx:71-81 | the search keeps exactly the users `ManagePage.Matches` accepts, in order, with their multiplicities |
| ManagePage.EmptySearchKeepsAll | app/manage/page.tsx:71-81 | an empty search term shows every user |
| ManagePage.SearchIgnoresCase | app/manage/page.tsx:74-78 | two terms that agree once lower-cased find the same users (including by id) |
| ManagePage.RemoveById | app/manage/page.tsx:88 | drops exactly the users whose id string equals the given one, keeping the order of the rest |
| ManagePage.RemoveByIdRemovesExactlyThatId | app/manage/page.tsx:88 | deleting by an id's string removes exactly the users with that id |
| ManagePage.FindById | app/manage/page.tsx:108 | finds the first user whose id string equals the given one, or reports that none does |
| ManagePage.ToggledStatus | app/manage/page.tsx:111 | the new status is "inactive" iff the old one is "active", and "active" otherwise |
| ManagePage.ToggleStatus | app/manage/page.tsx:106-114 | an unknown id changes nothing; otherwise users with that id get the status toggled from the first such user's, and nothing else changes |
| ManagePage.ToggleTwiceRestores | app/manage/page.tsx:106-114 | with unique ids, toggling twice restores the list when the status was "active" or "inactive" |
| ManagePage.FindByIdReadsIds | app/manage/page.tsx:108 | the lookup depends on the ids only |
| ManagePage.ManagePage.constructor | app/manage/page.tsx:18-22 | starts with no users, an empty search, and loading on |
| ManagePage.ManagePage.ApplySearch | app/manage/page.tsx:71-81 | the shown list becomes the search applied to the users; nothing else changes |
| ManagePage.ManagePage.LoadUsers | app/manage/page.tsx:26-65 | the users become the transformed list when the backend reports success, and empty otherwise; both indicators end off; the shown list follows the search |
| ManagePage.ManagePage.EmptySearchShowsAll | app/manage/page.tsx:71-81 | with an empty search the whole list is shown |
| ManagePage.ManagePage.SetSearchTerm | app/manage/page.tsx:71-81 | the shown list follows the new term; the users and both indicators are unchanged |
| ManagePage.ManagePage.HandleDeleteUser | app/manage/page.tsx:83-104 | on reported success the users with that id are removed; otherwise the list is unchanged; the search term and both indicators are unchanged |
| ManagePage.ManagePage.HandleToggleStatus | app/manage/page.tsx:106-128 | the list becomes the toggled list, and the shown list follows; the search term and both indicators are unchanged |

## Left out

- Toasts, console output, animation and rendering are not modelled, except where rendering decides behaviour (the camera's video element, the progress indicator, the header).
- Timers (`setTimeout` delays before hand-off and in the mock recognizer) are left out; each handler is atomic and its awaited outcome is a parameter.
- Floating point: similarity is computed in exact reals, and NaN (the `0/0` of two empty lists) is `None`.
- Dates: `new Date(created_at)` is a parsing function passed in; "a week ago" is now minus exactly seven days in milliseconds, while `setDate(getDate() - 7)` is calendar-based and differs across daylight-saving changes.
- `toLowerCase` is modelled on ASCII letters only.
- `trim`'s whitespace set is the ECMAScript one on code points; strings are sequences of code points, and UTF-16 appears only in `charCodeAt`.
- The dropzone's MIME-type filter and `maxFiles` are left out; the drop handler receives the files the dropzone accepted.
- `name`, `email` and `department` are read by the search but not declared on the user record; a missing one throws in the browser, and the model treats it as not matching.
- `makeRequest`'s JSON headers are not modelled; only method, URL and body are.
- Api.UpdateUserStatusRequest and Api.GetUserByIdRequest are modelled as request builders only, since the page toggles status locally and never calls them.
- EnrollPage.EnrollPage.SubmitDetails: the form's submission and the page's handler run as one step, so the header's Back button cannot be pressed while the request is pending; EnrollPage.EnrollPage.HandleUserSubmit alone models that late reply.
- The enrollment page's remounting of components between steps is not modelled; each component is a separate object passed to the page's handlers.
- The refresh button (`handleRefresh`) is LoadUsers with the refresh indicator set.
- ImageUpload.ImageUpload.AcquireCamera: a stream replaced by a new grant is dropped without its tracks being stopped, as in the code; the model does not track the orphaned tracks.
- ImageUpload.ImageUpload.HandleConfirm: a detection reply without a `faces` field throws at `result.faces[0]` (line 317) after the result is stored, and ends as a failed detection; the reply record always has a `faces` list, so that path is not modelled.
- ImageUpload.ImageUpload.AttachVideo: the `canplay` handler's stale reading of `isCameraActive` is not modelled, since setting an already-set flag has no effect.
- ImageUpload.CameraErrorMessage: the five specific messages being distinct from one another is not stated.
- The preview screen's "Retake with Camera" button opens the camera while the preview is still set, so the camera view stays hidden; this follows from CameraViewShown and is not stated separately.
- FaceRecognition.FaceRecognizeManagement.EnrollFace: `userData` is opaque (a type parameter), as in the code.

## Findings

| source | as written | input that shows it | evidently intended | confidence | as-written member | corrected member |
|---|---|---|---|---|---|---|
| components/image-upload.tsx:105-166 | `startCamera` (line 107) sets `isCameraActive` to false and attaches the video handlers only if the video element exists (line 134), but the element is rendered only while `isCameraActive` is true (line 373), so the handlers are never attached and the camera never activates | a supported browser in which the preferred `getUserMedia` call is granted and the video can play | the video element is rendered throughout the camera view, so a granted stream activates the camera | not executed | ImageUpload.ImageUpload.StartCameraAsWritten | ImageUpload.ImageUpload.StartCamera |
