# convencion2025 — a Dafny model of the contest points ledger and its helpers

The system is a convention contest site. An attendee registers once with a face
photo and then joins a contest by showing their face at its stand, which credits
the contest's points. They also earn points by answering trivia questions, and a
leaderboard ranks everyone. This project models the following parts:

- **The ledger** (`server.dfy`, module `Server`). The Express handlers for
  registration, contest participation, answering a question and the random
  question draw run over in-memory tables (`users`, `contests`, `participations`,
  `questions`, `answers`). Each handler is a pure step function on the tables,
  and class `Ledger` holds the tables as fields. Each of its methods is proved
  to produce exactly that step's new tables and reply. Every handler is proved
  to keep the invariant `Consistent`:
  - ids are row positions;
  - every row references existing rows;
  - there is at most one participation per (user, contest) and one answer per
    (user, question);
  - stored answers are upper-case A–D;
  - emails are unique;
  - every balance equals the points recorded for that user.

  `base64ToBuffer`'s prefix stripping is modelled too.
- **The leaderboard** (`ranking.dfy`, module `Ranking`): `GET /api/ranking` as a
  filter, an insertion sort, a limit and numbered rows, plus the statistics
  block.
- **The face-service adapter** (`aws_rekognition.dfy`, module `AwsRekognition`).
  Class `FaceService` holds the Rekognition collection as a set of face ids and
  the S3 bucket as a set of object keys. It models:
  - `indexFace`, branching on the number of face records and deleting the photo
    and the indexed faces again when the count is not one;
  - `searchFace`'s result mapping;
  - the non-throwing `deleteFace` and `deleteFromS3`;
  - the two string helpers: extension stripping and the S3 key.
- **The browser session slot** (`session.dfy`, module `Session`): class
  `SessionManager` over one optional stored record with a 24-hour expiry, and
  the remaining-time text.
- **The API URL builder** (`api_config.dfy`, module `ApiConfig`).
- **The orphan-face cleanup script** (`orphan_cleanup.dfy`, module
  `OrphanCleanup`): the paginated listing loop, the orphan filter and the
  delete loop in batches of 100.
- **Page helpers**:
  - the countdown split (`countdown.dfy`);
  - the audit page's search filter and totals (`audit.dfy`);
  - the profile page's average and best contest (`profile.dfy`).
- **Shared helpers** (`common.dfy`): `Option`/`Result`, ASCII case mapping,
  `String.prototype.trim`, decimal rendering and parsing, and `Math.round` of a quotient.

**AWS calls.** The answers of the AWS services are parameters (an `IndexOracle`,
a `SearchResponse`, pages of `listFaces`), because they depend on images and on
services outside the model.

**Time and randomness.** The clock is a parameter, in integer milliseconds. So
are the generated session token and the random pick of `ORDER BY RAND()`.

**Registration error handling.** The handler's catch block (server.js:206-218)
answers 400 for errors whose code is `InvalidImageFormatException` or
`InvalidParameterException`. But `indexFace` rethrows those two codes as new
errors that carry no code (lib/aws-rekognition.js:141-146). So every indexing
failure of a registration ends in the 500 answer. The model keeps the code as
written: `RegisterErrorReply` has both 400 branches, and
`RegisterIndexFailuresAre500` proves that they are unreachable from `indexFace`.

## Model

| member | source | states |
|---|---|---|
| ApiConfig.GetApiUrl | src/lib/api-config.ts:14-30 | A non-empty configured URL is returned with one trailing '/' removed when it has one. Without one the result is '' in production and http://localhost:3002 in development. |
| ApiConfig.OnlyOneTrailingSlashRemoved | src/lib/api-config.ts:18-21 | Only a single trailing slash is removed: `base + "//"` becomes `base + "/"`. |
| ApiConfig.NormalizePath | src/lib/api-config.ts:37 | The normalised path starts with '/'. It equals the path when that already starts with '/', and is '/' + path otherwise. |
| ApiConfig.NormalizePathIdempotent | src/lib/api-config.ts:37 | Normalising twice is the same as normalising once. |
| ApiConfig.ApiUrl | src/lib/api-config.ts:35-46 | The URL is the base followed by the normalised path, and exactly the normalised path when the base is empty. |
| ApiConfig.DevelopmentRoute | src/lib/api-config.ts:28-29 | With no configured URL in development, every route goes to the local backend. |
| ApiConfig.ProductionRoute | src/lib/api-config.ts:24-26 | With no configured URL in production, a route starting with '/' is used as it is. |
| Session.ValidSession | src/lib/session.ts:39-64 | `get()` yields a session iff the slot holds a parsable record with !(expiresAt < now), so one expiring exactly now is valid. It yields that very record. |
| Session.SlotAfterGet | src/lib/session.ts:48-62 | After `get()` the slot is either unchanged or empty. It is kept iff it held a valid session. |
| Session.Create | src/lib/session.ts:114-122 | A created session expires 24 h after now. It uses the supplied token when truthy, else the generated one, and keeps id, name and email. |
| Session.HoursMinutes | src/lib/session.ts:135-136 | Minutes are below 60, and hours·3600000 + minutes·60000 ≤ diff < hours·3600000 + (minutes+1)·60000. |
| Session.HoursMinutesAsWritten | src/lib/session.ts:135-136 | `Math.floor` of the real quotients gives the same hours and minutes. |
| Session.RemainingText | src/lib/session.ts:138-142 | The remaining-time text is never empty and always ends in 'm'. |
| Session.FormatRemainingRoundTrip | src/lib/session.ts:135-142 | The text shown ("Hh Mm", or "Mm" with no whole hour) parses back to exactly the hours and minutes it was made from. |
| Session.FormatRemaining | src/lib/session.ts:135-142 | The text for a difference in milliseconds. Specified by HoursMinutes, RemainingText and FormatRemainingRoundTrip. |
| Session.SessionManager.Save | src/lib/session.ts:23-34 | The slot holds exactly the saved record. |
| Session.SessionManager.Clear | src/lib/session.ts:76-83 | The slot is empty. |
| Session.SessionManager.Get | src/lib/session.ts:39-64 | Returns ValidSession of the old slot and leaves SlotAfterGet. A missing, expired or unparsable record gives null, and the latter two are cleared. |
| Session.SessionManager.IsActive | src/lib/session.ts:69-71 | True iff `get()` finds a valid session, with the same effect on the slot as `get()`. |
| Session.SessionManager.Renew | src/lib/session.ts:89-97 | A valid session is re-saved with expiry now + 24 h. Otherwise the slot is left as `get()` leaves it. |
| Session.RenewedSlot | src/lib/session.ts:89-97 | The slot after renew(): the valid session with expiry now + 24 h, or empty. Specified by RenewKeepsSession and RenewWithoutSession. |
| Session.SessionManager.GetTimeRemaining | src/lib/session.ts:127-143 | Null without a valid session, otherwise the formatted text of expiresAt − now. The slot is affected as by `get()`. |
| Session.CreatedSessionLifetime | src/lib/session.ts:48-56 | A created session is returned up to and including now + 24 h, and never after. |
| Session.RenewKeepsSession | src/lib/session.ts:89-97 | Renewing keeps every field but the expiry, which becomes now + 24 h, so the session stays valid for the next 24 h. |
| Session.RenewWithoutSession | src/lib/session.ts:90-91 | Without a valid session, renewing leaves the slot empty. |
| Session.FreshSessionRemaining | src/lib/session.ts:17 | A fresh session has exactly 24 hours and 0 minutes left, shown as "24h 0m". |
| AwsRekognition.StripExtension | lib/aws-rekognition.js:101 | The name is unchanged, or it is base + "." + a non-empty suffix containing neither '.' nor '/', and base is returned. |
| AwsRekognition.StripExtensionOfName | lib/aws-rekognition.js:101 | base + "." + ext loses exactly ".ext" when ext is non-empty and contains no '.' or '/'. |
| AwsRekognition.StripExtensionKeepsDotlessTail | lib/aws-rekognition.js:101 | A name that is empty or ends in '.' or '/' is unchanged. |
| AwsRekognition.S3KeyOfLocation | lib/aws-rekognition.js:63-64 | Segments 3 onward of an uploaded object's Location (https://host/key) rejoin to the object's key. |
| AwsRekognition.TranslateIndexError | lib/aws-rekognition.js:141-151 | InvalidParameterException, InvalidImageFormatException and ImageTooLargeException become code-less errors with their own Spanish messages. Any other error is rethrown unchanged, with its code and message. |
| AwsRekognition.IndexFaceResult | lib/aws-rekognition.js:89-153 | Succeeds iff the upload succeeds and exactly one face record is returned. It then returns that face id, its confidence and the S3 URL. Zero records fail with "No se detectó ningún rostro…", more than one with "Se detectaron múltiples rostros…". |
| AwsRekognition.IndexFaceErrorsLoseKnownCodes | lib/aws-rekognition.js:137-152 | No error thrown by `indexFace` carries one of the three codes it translates. |
| AwsRekognition.SearchFace | lib/aws-rekognition.js:160-210 | Found iff the response has at least one match, and then it is the first match's face id and similarity. An error is thrown iff the search failed with a code other than InvalidParameterException, which counts as not found. InvalidImageFormatException gives the format error. Any other error is rethrown unchanged, with its code and message. |
| AwsRekognition.FoundFaceMeetsThreshold | lib/aws-rekognition.js:160-210 | When the service honours the request (threshold 90, at most one face), a face reported as found is the single match and is at least 90% similar. |
| AwsRekognition.IndexedFaceIsStored | lib/aws-rekognition.js:126-135 | After a successful call the collection has gained exactly that face id, and the bucket holds faces/fileName. |
| AwsRekognition.RejectedImageLeavesNothing | lib/aws-rekognition.js:110-124 | With zero or several records and the deletes succeeding, none of the indexed faces remain and the photo is gone. |
| AwsRekognition.FailedIndexingKeepsCollection | lib/aws-rekognition.js:137-152 | A failed upload or a failed indexFaces call leaves the collection as it was. |
| AwsRekognition.FaceService.UploadToS3 | lib/aws-rekognition.js:38-54 | On success the key faces/fileName is added and its Location returned. On failure the error is "Error al subir imagen a S3: " + message and nothing changes. |
| AwsRekognition.FaceService.DeleteFromS3 | lib/aws-rekognition.js:60-77 | Removes the URL's key when the delete succeeds, leaves the bucket otherwise, and never fails. |
| AwsRekognition.FaceService.DeleteFaces | lib/aws-rekognition.js:219-224 | The given ids leave the collection and nothing else changes. |
| AwsRekognition.FaceService.DeleteFace | lib/aws-rekognition.js:217-232 | Returns true and removes the id when the delete succeeds. Otherwise it returns false and changes nothing. |
| AwsRekognition.FaceService.DeleteIndexedFaces | lib/aws-rekognition.js:120-122 | Deleting each record's face in turn removes exactly the records' ids that can be deleted. |
| AwsRekognition.FaceService.IndexFace | lib/aws-rekognition.js:89-153 | Returns IndexFaceResult, and leaves the bucket and the collection as BucketAfterIndex and CollectionAfterIndex state. |
| AwsRekognition.BucketAfterIndex | lib/aws-rekognition.js:89-153 | The bucket after indexFace: the photo is stored unless the upload failed, and removed again when zero or several faces come back. Specified by IndexedFaceIsStored and RejectedImageLeavesNothing. |
| AwsRekognition.CollectionAfterIndex | lib/aws-rekognition.js:89-153 | The collection after indexFace: the indexed faces are added, and with several records those that can be deleted are removed. Specified by IndexedFaceIsStored, RejectedImageLeavesNothing and FailedIndexingKeepsCollection. |
| Server.CreditOnlyMovesBalance | server.js:329-333 | The balance update adds the points to that user's total and changes no other user and no id or email. |
| Server.Base64Payload | server.js:99-103 | The decoded text is the input itself, or a strict suffix of it. |
| Server.DataUrlPayload | server.js:101 | `data:image/<word>;base64,<data>` loses exactly its header. |
| Server.PlainBase64Unchanged | server.js:101 | Text not starting with `data:image/` is decoded unchanged. |
| Server.MalformedHeaderUnchanged | server.js:99-103 | Text the header expression `^data:image\/\w+;base64,` does not match, such as a `data:image/` URL without `;base64,`, is decoded unchanged. |
| Server.MatchedHeaderStripped | server.js:99-103 | Text the header expression matches, with a type of any length, loses exactly the matched header. |
| Server.OrNull | server.js:181 | `value \|\| null` is the value iff it is truthy, and null otherwise. |
| Server.RegisterStep | server.js:130-225 | The registration handler touches only the users table. Its replies are specified by RegisterRejections, RegisterInsertsOneUser and RegisterIndexFailuresAre500, and its invariant by RegisterStepConsistent. |
| Server.RegisterGuard | server.js:134-168 | Every rejection before indexing is a failure reply. |
| Server.RegisterErrorReply | server.js:203-224 | The catch block answers 400 iff the error's code is InvalidImageFormatException or InvalidParameterException, and 500 otherwise. |
| Server.RegisterRejections | server.js:134-168 | A rejected registration writes nothing. It answers 400, 409 or 503; a missing or blank name gives 400 "El nombre es requerido"; a missing photo after a valid name gives 400 "La foto es requerida"; with both present, a taken email gives 409 "El email ya está registrado", and otherwise the only rejection left is 503 without AWS. |
| Server.RegisterInsertsOneUser | server.js:175-201 | A successful registration appends exactly one user with the next id. The user is bound to the indexed face id and photo URL, has 0 points and is active. Its name is the request's, its email and phone are the request's or null when empty, and its registration date is now. The reply repeats the name and email, and the session expires 24 h later. |
| Server.SecondRegistrationSameEmail | server.js:148-160 | After a registration with an email succeeds, a later one with that email, a name and a photo is refused with 409. |
| Server.RegisterIndexFailuresAre500 | server.js:206-223 | Every indexFace failure ends in the 500 answer. |
| Server.AppendUserConsistent | server.js:178-182 | Inserting a user with the next id, 0 points and an unused email keeps the tables consistent. |
| Server.RegisterStepConsistent | server.js:130-225 | Registration preserves the consistency invariant. |
| Server.ParticipateStep | server.js:231-357 | The participation handler inserts no user and touches only participations and balances. Its replies are specified by ParticipateRejections, ParticipateCredits and RepeatParticipation, and its invariant by ParticipateStepConsistent. |
| Server.ParticipateRejections | server.js:235-319 | Every reply other than a new participation leaves all tables unchanged. An unknown or inactive code gives 404 "Concurso no encontrado o inactivo". An unrecognised face, or one no user has, gives 'no-registrado'. |
| Server.ParticipateCredits | server.js:322-346 | A new participation happens only with no existing row for (user, contest). It inserts exactly (user, contest, puntos_otorgados, similarity, now). That user's total grows by puntos_otorgados, which is the reported total; nothing else changes. |
| Server.RepeatParticipation | server.js:297-319 | Repeating a participation answers 'ya-participaste' with the stored points and date and changes nothing. |
| Server.AppendParticipationConsistent | server.js:322-333 | Inserting a first (user, contest) row and crediting its points keeps the tables consistent. |
| Server.ParticipateStepConsistent | server.js:231-357 | Participation preserves the consistency invariant. |
| Server.AnswerStep | server.js:676-780 | The answer handler inserts no user and touches only answers and balances. Its replies are specified by AnswerRejections, AnswerCredits and RepeatAnswer, and its invariant by AnswerStepConsistent. |
| Server.AnswerRejections | server.js:680-736 | Every rejection writes nothing. A missing id or answer gives 400 "Faltan parámetros requeridos"; an answer other than A–D gives 400 with the choice error; then an unknown user gives 404, an unknown or inactive question 404, and an answered pair 409 "Ya respondiste esta pregunta anteriormente". An answer is accepted iff both ids are truthy, the answer upper-cases to A–D, the user exists, the question exists and is active, and the pair is unanswered. |
| Server.AnswerCredits | server.js:739-771 | The stored answer is upper-cased. It is correct iff it equals respuesta_correcta and earns puntos if correct, else 0. Only that user's balance moves, and only when correct. |
| Server.RepeatAnswer | server.js:726-736 | A second answer to the same question gets 409 and changes nothing. |
| Server.AppendAnswerConsistent | server.js:743-757 | Inserting a first (user, question) answer and crediting its points keeps the tables consistent. |
| Server.AnswerStepConsistent | server.js:676-780 | Answering preserves the consistency invariant. |
| Server.EligibleQuestions | server.js:632-656 | A question is eligible iff it is active and, when a user id is given, that user has not answered it. |
| Server.RandomQuestion | server.js:625-670 | 404 "No hay preguntas disponibles" iff no question is eligible. Otherwise the reply is the selected columns (no correct option) of an active question from the table that the user has not answered. |
| Server.AnsweredQuestionNotDrawnAgain | server.js:636-641 | Once a user answers a question, the draw for that user never returns it. |
| Server.Ledger.Register | server.js:130-225 | New tables and reply are RegisterStep's, and the invariant is kept. A rejection leaves the face service untouched; otherwise it changes as indexFace specifies. |
| Server.Ledger.Participate | server.js:231-357 | New tables and reply are ParticipateStep's, and the invariant is kept. |
| Server.Ledger.AnswerQuestion | server.js:676-780 | New tables and reply are AnswerStep's, and the invariant is kept. |
| Ranking.EffectiveLimit | server.js:571 | `parseInt(limit) \|\| 50` is 50 for NaN or 0 and the parsed value otherwise. |
| Ranking.ListedUsers | server.js:582 | Exactly the active users with points, as a multiset of the table's rows. |
| Ranking.SortByRank | server.js:583 | The listed users, permuted, in order of points descending then registration date ascending. |
| Ranking.RankingRows | server.js:603-610 | One row per user shown. |
| Ranking.TopUsersOfListed | server.js:582-584 | min(limit, eligible) users are shown. Each is an active user with points from the table, in ranking order, without repeats beyond the table's. All of them are shown when they fit. |
| Ranking.TopUsers | server.js:575-585 | The ranking query's rows: the LIMIT prefix of the sorted eligible users. Specified by TopUsersOfListed and CutOffRanksBehind. |
| Ranking.RankingIsTopOfListed | server.js:571-610 | The rows are numbered 1..n in ranking order. Each carries its user's id, points and participation count. |
| Ranking.CutOffRanksBehind | server.js:583-584 | Every user left off the board ranks no better than every user shown. |
| Ranking.RankingStats | server.js:589-597 | totalUsuarios counts the active users. SUM and MAX are null exactly when there are none. Otherwise SUM is the sum of the active balances and MAX is one of them and bounds all of them; the average is Promedio of the active balances. |
| Ranking.PromedioNearAverage | server.js:593 | Rounding the four-decimal AVG gives the exactly rounded average or one above it. |
| Ranking.Promedio | server.js:593 | `Math.round(AVG || 0)`: 0 without active users. Specified by PromedioNearAverage. |
| Ranking.RankingHandler | server.js:570-619 | A negative limit is a 500 from the error handler. Otherwise at most `limit` rows are returned, and at most 50 without a limit. |
| OrphanCleanup.ValidFaceIds | scripts/limpiar-rekognition.js:29-30 | The valid set is exactly the non-null face ids of the users table. |
| OrphanCleanup.Orphans | scripts/limpiar-rekognition.js:52 | An id is an orphan iff it is listed and not valid. |
| OrphanCleanup.OrphansAppend | scripts/limpiar-rekognition.js:52 | The filter keeps the listing's order. |
| OrphanCleanup.OrphansSingle | scripts/limpiar-rekognition.js:52 | A single face is kept iff no user refers to it. |
| OrphanCleanup.ListAllFaces | scripts/limpiar-rekognition.js:34-47 | The listing is every page's faces, in order, up to and including the first page without a NextToken. |
| OrphanCleanup.DeleteInBatches | scripts/limpiar-rekognition.js:67-78 | The batches are consecutive slices of 1–100 ids, ⌈n/100⌉ of them, that concatenate to the ids. Exactly those ids leave the collection. |
| OrphanCleanup.LimpiarRekognition | scripts/limpiar-rekognition.js:27-80 | The orphans are the listed faces not in the users table. With none, no delete is issued. Otherwise exactly the orphans are deleted, in batches of at most 100. |
| OrphanCleanup.CleanupKeepsExactlyValid | scripts/limpiar-rekognition.js:29-78 | When the pages list the whole collection, exactly the faces a user refers to remain. |
| OrphanCleanup.LastPageUnique | scripts/limpiar-rekognition.js:37-47 | The page ending the do-while loop is unique. |
| Countdown.CalculateTimeLeft | src/pages/Countdown.tsx:57-79 | The expired flag is set iff target − now ≤ 0, and then all four fields are 0. Otherwise days = diff div 86400000, hours < 24, minutes < 60, seconds < 60, and days·86400 + hours·3600 + minutes·60 + seconds = diff div 1000. |
| Countdown.TimeLeftUnique | src/pages/Countdown.tsx:73-78 | Fields within those bounds are determined by the total seconds. |
| Countdown.TickRemovesOneSecond | src/pages/Countdown.tsx:73-78 | One second later the display shows exactly one second less. |
| Countdown.CalculateTimeLeftAsWritten | src/pages/Countdown.tsx:74-77 | The floating expressions as written (`Math.floor` and JavaScript `%`) give the same integer fields. |
| Countdown.FloorRemAsWritten | src/pages/Countdown.tsx:75-77 | `Math.floor((d / unit) % m)` equals (d div unit) mod m. |
| Countdown.PadStart | src/pages/Countdown.tsx:170 | The padded text has length max(2, \|s\|), ends with s, and is padded with '0'. |
| Countdown.TwoDigitsShowsValue | src/pages/Countdown.tsx:170 | At least two digits that read back as the value. Values ≥ 10 are unchanged, values < 10 get one leading '0'. |
| Countdown.TwoDigits | src/pages/Countdown.tsx:170 | `String(value).padStart(2, '0')`. Specified by PadStart and TwoDigitsShowsValue. |
| Audit.FilterUsers | src/pages/AuditoriaParticipantes.tsx:94-105 | The search filter. Specified by BlankTermListsAll, NonBlankTermFilters, KeepMatchingMembers, KeepMatchingAppend and LeadingSpaceMissesName. |
| Audit.KeepMatchingMembers | src/pages/AuditoriaParticipantes.tsx:100-104 | The filter keeps exactly the users that match. |
| Audit.BlankTermListsAll | src/pages/AuditoriaParticipantes.tsx:94-97 | A blank or whitespace-only term lists every user. |
| Audit.NonBlankTermFilters | src/pages/AuditoriaParticipantes.tsx:94-104 | For any other term, a user is listed iff the lower-cased term occurs in their lower-cased name, email or employee number. A null or empty field never matches. |
| Audit.KeepMatchingAppend | src/pages/AuditoriaParticipantes.tsx:100-105 | The filter keeps the list's order. |
| Audit.LeadingSpaceMissesName | src/pages/AuditoriaParticipantes.tsx:94-101 | The term is trimmed only for the blank check: " ana" does not find "Ana". |
| Audit.TotalPuntosGeneral | src/pages/AuditoriaParticipantes.tsx:141 | The points total over all users. Specified by TotalsCoverHiddenUsers. |
| Audit.TotalParticipaciones | src/pages/AuditoriaParticipantes.tsx:142 | The participation total (contests plus trivia answers) over all users. Specified by TotalsCoverHiddenUsers. |
| Audit.TotalsCoverHiddenUsers | src/pages/AuditoriaParticipantes.tsx:141-142 | The totals are those of the shown users plus those of the hidden ones, so they cover all users. |
| Profile.Average | src/pages/MiPerfil.tsx:304 | 0 for an empty history. Otherwise the nearest integer to total / n, halves rounded up. |
| Profile.AverageAsWritten | src/pages/MiPerfil.tsx:304 | That equals `Math.round` of the real quotient. |
| Profile.MaxIndex | src/pages/MiPerfil.tsx:378 | The reduce picks an entry with the most points, and every earlier entry has strictly fewer. |
| Profile.BestContestIsEarliestMaximum | src/pages/MiPerfil.tsx:370-378 | The best contest shown is the earliest entry with the most points. |
| Profile.MaxParticipacion | src/pages/MiPerfil.tsx:370-378 | The best contest shown: the entry at MaxIndex. Specified by BestContestIsEarliestMaximum. |

## Left out

- Transport: HTTP, JSON bodies and Express, cors and multer plumbing. The global error middleware appears only as the 500 answer of a failed ranking query, and the health, 404 and other endpoints of server.js are not modelled.
- Database failures: an INSERT or UPDATE that fails would give a handler's 500 answer. Every statement is assumed to succeed.
- Concurrency: each handler is one atomic step. The read-then-write races between two requests are not modelled.
- MySQL collation: email uniqueness and the ranking sort compare values exactly. MySQL's case-insensitive collation and tie order are not modelled. Ties on points and date keep table order, because the insertion sort is stable.
- Text: case mapping covers ASCII letters only; trimming follows `String.prototype.trim`.
- The base64 decoding itself: only the prefix that is stripped before decoding is modelled.
- AWS calls: the SDK calls, their answers and the images are oracle parameters.
- AWS setup checks: `checkCollection`, `checkBucket` and `verifySetup` are admin I/O and are not modelled.
- Logging: not modelled.
- Randomness: `ORDER BY RAND()`, `crypto.randomUUID` and `generateToken` are parameters (`pick`, `sessionToken`, `generatedToken`).
- Clocks and dates: the clock is a parameter in integer milliseconds. ISO date strings and locale formatting are not modelled.
- Number types: points and ids are unbounded naturals. Similarity and confidence scores are passed through as reals. JavaScript numbers are modelled as exact reals, so rounding errors of floating point are not captured.
- Server.RandomQuestion: the `usuarioId` query string is modelled as an already parsed optional integer. MySQL's string-to-number comparison is not modelled.
- Server.AnswerStep: the body's `usuarioId` and `preguntaId` are modelled as optional integers, falsy when missing or 0. A string id such as "0", which is truthy in JavaScript, and MySQL's string-to-number comparison are not modelled; the same holds for Server.Ledger.AnswerQuestion.
- Session.SessionManager.GetTimeRemaining: one clock reading stands for the two the source takes, one inside `get()` and one after it. A session that expires between them gives a negative difference, and the source then shows text such as "-1m"; the model cannot produce that text.
- Session.SessionManager.Get: `expiresAt` is an integer. A stored date string that does not parse gives an Invalid Date in the source, the `expiresAt < now` test is then false, and such a session never expires; the model does not capture that case.
- The 503 guard: the guard for a missing AWS library is a boolean.
- OrphanCleanup.LimpiarRekognition: a failing `listFaces` or `deleteFaces` call ends the script in its catch block. The model assumes both succeed.
- Session.SessionManager.Save: a `localStorage` write that throws is only logged; the model assumes the write succeeds.
- React: state, effects, timers and rendering are not modelled. Of the pages, only the named computations of Countdown, AuditoriaParticipantes and MiPerfil are modelled.
