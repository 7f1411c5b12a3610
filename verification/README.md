# Mass course creator: a verified model of the course workflow

The program drives a remote course service in four steps per PDF file:
upload the file as a *material*, create a *course* from the material id,
rename the course after the file, and publish it. `PenseumCourseCreator`
holds the session (default headers and the bearer token from `login`). It runs
the steps for one file (`create_course_from_file`), for every PDF in the
`studocu` folder (`process_all_courses`), for the first PDF only
(`test_single_course`), or for a material id typed in by the operator
(`manual_course_creation`).

This project models that logic in Dafny. Every HTTP exchange is replaced by
the value it produced, and every file-system question by its answer. What is
left is deterministic and is stated and proved:

- `path_names.dfy` (`PathNames`): the course name derived from a file path.
  This covers POSIX `os.path.basename`, `os.path.splitext` (split at the last
  dot, but a name whose part before that dot is only dots has no extension),
  and the two `str.replace` calls that turn `_` and `-` into spaces.
- `text.dfy` (`Text`): Python's `str.strip()`, applied to the operator's
  input on the manual path.
- `sessions.dfy` (`Sessions`): the header map. `login` adds
  `Authorization: Bearer <token>` only for a non-empty token. `upload_material`
  sends the headers minus exactly `content-type`.
- `steps.dfy` (`Steps`): how `upload_material` and `create_course` turn an
  answer into an optional id (a non-empty id or `None`). The create timeout
  gives `None`, like every other failure.
- `workflow.dfy` (`Workflow`): the per-file pipeline and the manual path.
  Each step's result is an input, and a trace records every step method
  invoked, with its arguments and the headers its request would carry. The
  course name given to `create_course` is one of those arguments, although
  that method only prints it. An upload is recorded even when the file cannot
  be opened and no request is sent. A reference state machine (`Execute`) is proved to
  produce exactly the pipeline's run. Started at the creation stage, it
  produces exactly the manual path's run.
- `batch.dfy` (`Batch`): the batch loop as a fold over per-file events
  (`Ok`, `Fail`, `Exception`, `Interrupt`), its guards (missing folder, no
  files, failed login), and `test_single_course`.

Python truthiness is modelled explicitly (`Options.Truthy`): an id or token
that is `None` or the empty string counts as failure.

Some behaviour of the code is worth stating plainly, since the model keeps it:

- A create timeout is not a separate outcome. `create_course` prints a note
  and returns `None`, as for any failure (mass_course_creator.py:121-125).
- A failed rename only prints a warning (mass_course_creator.py:185-186); the
  file's result is the publish result.
- Each file yields one boolean (mass_course_creator.py:194), and the batch
  keeps two counters (mass_course_creator.py:244-247).

## Model

| member | source | states |
|---|---|---|
| PathNames.Basename | mass_course_creator.py:170 | the base name is the longest suffix of the path without `/`: it has no `/` and is the whole path or preceded by a `/` |
| PathNames.SplitExt | mass_course_creator.py:171 | `splitext` splits the path into a root and an extension that concatenate back to the path |
| PathNames.SplitIsExtension | mass_course_creator.py:171 | when the last dot follows the last `/` and the text between them is not all dots, the part from that dot on is an extension |
| PathNames.ExtensionIsSplit | mass_course_creator.py:171 | any extension starts at the last dot, after the last `/`, with a non-dot character before it in the final component: exactly the case in which `splitext` splits |
| PathNames.SplitExtMatchesExtensionAt | mass_course_creator.py:171 | `splitext` cuts off a non-empty extension only when it is an extension. When the path has an extension, `splitext` removes exactly that part, so nothing is removed when there is none |
| PathNames.SeparatorsBecomeSpaces | mass_course_creator.py:171 | the two `replace` calls keep the length, turn exactly the `_` and `-` characters into spaces, leave none of them behind and introduce no `/` |
| PathNames.StemIsPrefix | mass_course_creator.py:170-171 | the stem is a prefix of the base name and so contains no `/` |
| PathNames.Stem | mass_course_creator.py:170-171 | the base name without its extension; its contract is stated by PathNames.StemDropsOnlyFinalExtension and PathNames.StemIsPrefix |
| PathNames.CourseName | mass_course_creator.py:170-171 | the stem with `_` and then `-` replaced by spaces; its contract is stated by PathNames.CourseNameShape |
| PathNames.CourseNameShape | mass_course_creator.py:170-171 | the course name has the stem's length, equals it except at `_` and `-`, which become spaces, and contains no `_`, `-` or `/` |
| PathNames.StemDropsOnlyFinalExtension | mass_course_creator.py:170-171 | the stem is a prefix of the base name; it is the whole base name exactly when there is no extension, and otherwise only the final extension is cut |
| PathNames.BasenameOfJoin | mass_course_creator.py:170 | for `dir/file` with a slash-free file name the base name is the file name, whatever the folder |
| PathNames.StemOfFile | mass_course_creator.py:170-171 | for `dir/file` with an extension at position k, the stem is the file name up to k: the folder and only the last extension are dropped |
| PathNames.PdfStem | mass_course_creator.py:170-171 | a listed file `dir/base.pdf` has the stem `base` in any folder, unless `base` is made of dots only |
| PathNames.NoSeparatorsKeepsStem | mass_course_creator.py:171 | a stem without `_` or `-` is the course name unchanged |
| PathNames.OnlyLastExtensionRemoved | mass_course_creator.py:171 | `a.b.pdf` yields the course name `a.b` in any folder |
| PathNames.LeadingDotIsNotExtension | mass_course_creator.py:171 | a file name whose only dot is the leading one (`.hidden`) keeps its whole name as the stem |
| PathNames.CourseNameExample | mass_course_creator.py:170-171 | `intro_to-biology.pdf` yields `intro to biology` in any folder |
| Text.Strip | mass_course_creator.py:269-275 | `strip()` returns the part of the input between leading and trailing white space; it has no white space at either end and is empty exactly when the input is all white space |
| Sessions.Login | mass_course_creator.py:38-56 | login succeeds exactly for a non-empty token and then sets `Authorization` to `Bearer ` plus the token; otherwise the headers are unchanged, and a failed request changes nothing |
| Sessions.UploadHeaders | mass_course_creator.py:67 | the upload headers have exactly the session's keys minus `content-type`, each with the session's value |
| Sessions.UploadHeadersAfterLogin | mass_course_creator.py:67 | after a successful first login the upload sends exactly `accept` and the bearer `Authorization` |
| Sessions.UploadKeepsCredential | mass_course_creator.py:67 | the upload keeps `Authorization` unchanged, never has `content-type`, and drops one header exactly when `content-type` was present |
| Sessions.FailedLoginAddsNoCredential | mass_course_creator.py:45-52 | from a session without a credential, a failed login leaves it without one and a successful login adds one |
| Steps.UploadMaterial | mass_course_creator.py:58-89 | the upload yields an id exactly when the answer holds a non-empty `material_id`, and that id; a missing file or failed request yields `None` |
| Steps.CreateCourse | mass_course_creator.py:91-128 | creation yields an id exactly when the answer holds a non-empty `course_id`, and that id; a timeout yields `None` |
| Steps.TimeoutIsPlainFailure | mass_course_creator.py:121-128 | a creation timeout gives the caller the same result as a failed request or an answer without a course id |
| Workflow.Pipeline | mass_course_creator.py:173-194 | a falsy upload result stops after the upload; a falsy create result stops after create; otherwise upload, create, rename and publish each happen exactly once in that order. The result is true exactly when both ids are truthy and publish succeeds. Create gets the material id and the name; rename and publish get the course id; upload sends the upload headers and every later call the session headers |
| Workflow.CreateCourseFromFile | mass_course_creator.py:164-194 | the pipeline run with the name derived from the path; its contract is stated by Workflow.DerivedNameInRequests, Workflow.Pipeline and Workflow.PipelineIsMachine |
| Workflow.DerivedNameInRequests | mass_course_creator.py:170-184 | create and rename receive the course name derived from the file's path, which holds no `_` or `-`; the new name in rename holds no `/` either |
| Workflow.RenameResultIgnored | mass_course_creator.py:183-194 | the run, including the returned flag, does not depend on what rename returned |
| Workflow.UploadAnswerDecidesPipeline | mass_course_creator.py:58-89 | the file pipeline stops after the upload exactly when the upload's answer holds no non-empty `material_id`, a missing file or failed request included, and otherwise creates the course from that id |
| Workflow.CreateAnswerDecidesPipeline | mass_course_creator.py:91-128 | after a successful upload the pipeline stops after create exactly when the answer holds no non-empty `course_id`, a timeout included, and otherwise renames and publishes that course |
| Workflow.Execute | mass_course_creator.py:164-194 | the reference state machine makes at most one request per remaining stage and makes none once finished |
| Workflow.PipelineIsMachine | mass_course_creator.py:164-194 | the pipeline's run equals the state machine's run from the upload stage |
| Workflow.UploadThenCreation | mass_course_creator.py:173-181 | after a truthy upload, the machine's run is the upload request followed by the run from the creation stage |
| Workflow.ManualSteps | mass_course_creator.py:274-288 | the manual steps start with create, passing the material id and the name or `None`. They are create alone for a falsy course id, otherwise create, rename and publish once each in that order, without rename when the name is empty. There is no upload. The result is true exactly when the id is truthy and publish succeeds, and every request carries the session headers |
| Workflow.CreateAnswerDecidesManual | mass_course_creator.py:277-288 | on the manual path nothing follows create exactly when the answer holds no non-empty `course_id`, and a timeout never yields success |
| Workflow.ManualCourseCreation | mass_course_creator.py:264-288 | the manual path makes requests exactly when the login succeeds and the stripped material id is non-empty, and then runs the manual steps on the stripped inputs with the post-login headers |
| Workflow.ManualIsMachineWithoutUpload | mass_course_creator.py:274-288 | the manual steps equal the state machine's run from the creation stage, renaming only to a non-empty name |
| Workflow.RequestsCarryCredential | mass_course_creator.py:46-67 | after a successful login every request of the file pipeline, the upload included, carries `Authorization: Bearer <token>` |
| Batch.Completed | mass_course_creator.py:242-254 | the loop completes exactly the files before the first interrupt |
| Batch.Fold | mass_course_creator.py:239-257 | `successful` counts the `Ok` events and `failed` the `Fail` and `Exception` events among the files before the first interrupt |
| Batch.TallyAccounting | mass_course_creator.py:239-262 | successful plus failed equals the number of completed files: all files when there is no interrupt, fewer when there is one |
| Batch.AfterInterruptIgnored | mass_course_creator.py:252-254 | nothing after an interrupt changes the tally |
| Batch.EventOf | mass_course_creator.py:243-257 | a file counts as `Ok` exactly when its pipeline returns true; an unexpected exception is an `Exception` event and an interrupt an `Interrupt` event |
| Batch.ProcessAllCourses | mass_course_creator.py:220-262 | a missing folder or an empty file list stops the batch before login. A failed login stops it before any file. Otherwise it reports the tally and the number of files. `successful` is the number of `Ok` files and `failed` the number of `Fail` and `Exception` files before the first interrupt; the counts never exceed the number of files and add up to it exactly when no file is interrupted |
| Batch.SingleTestIsOneFileBatch | mass_course_creator.py:196-262 | after a successful login, `test_single_course` succeeds exactly when a batch of its first file counts one success, and fails exactly when that batch counts one failure |
| Batch.TestSingleCourse | mass_course_creator.py:196-218 | the same guards as the batch, then the pipeline on the first file only; the result is true only when both ids are truthy and publish succeeds |

## Left out

- HTTP requests, JSON decoding, status checks and exception classes are not modelled. Each is the reply or step result it produced, passed in as a parameter, because the service is outside the program.
- Opening the PDF and listing `studocu/*.pdf` are not modelled. Whether the folder exists and the list of files are inputs (file-system I/O).
- Reading the operator's input with `input()` is left out; the typed strings are parameters. Their `strip()` is modelled.
- The interactive `main` menu and every `print` are left out: they are user interface.
- The `time.sleep(2)` pause is left out (timing). A KeyboardInterrupt during the pause after file i has already counted file i, so its tally equals an `Interrupt` event at file i+1. If file i is the last file, its tally equals a normal finish. The model therefore has no separate event for it.
- The 150-second create timeout is a reply kind only. It changes printed text, and the caller sees `None` as for any failure.
- Exceptions escaping `test_single_course` and `manual_course_creation` are left out. Those methods have no handler, so an exception ends the program's menu loop, which is not modelled.
- Identifiers and tokens are strings. A JSON answer whose `material_id`, `course_id` or `access_token` is some other truthy JSON value is not modelled.
- The hard-coded credentials, base URL and the unused `daily_minute` field are configuration, not logic.
- test_single_course.py is not part of this model. It is a driver script that repeats `test_single_course` with extra printing.
- Workflow.Execute: its contract bounds the trace length only. The full equivalence with the pipeline is stated by Workflow.PipelineIsMachine and Workflow.ManualIsMachineWithoutUpload.
- File names follow POSIX `posixpath`: `/` is the only separator. On Windows `str(Path)` uses `\` and `ntpath` splits differently; that platform is not modelled.
- Python strings can hold lone surrogates, which `glob` produces for undecodable file names. Dafny's `char` cannot hold them, so such names are not modelled.
