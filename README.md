# autoext, modelled in Dafny

autoext watches one directory. When the first new file appears, it asks the
operator which format the file is in and renames the file to that format's
extension. Then it exits. If nothing is created within the wait timeout, it
exits without renaming anything.

The model covers the two pieces of decision logic in `src/main.rs`:

- `formats.dfy` (module `Formats`) covers the format menu and the extension
  `match`. It is a pure function from the selected menu position and the
  reply to the free-text prompt to an extension. It also says whether the
  empty-extension warning is written.
- `dispatch.dfy` (module `Dispatch`) covers the wait loop. The watcher's
  output is an abstract input sequence. Each element is an event (a kind and
  a list of paths), a backend error, or a timeout. `Run` is the specification
  of a run: it gives the outcome, the status lines written, and how many
  values were received. It is stated through `FirstEnd`, the position of the
  first value that ends the wait, and `Reports`, the lines written for the
  backend errors before it. `WaitForFirstFile` is the loop itself, written as
  a `while` loop with `break`, and is proved equal to `Run`. Its helper
  `HandleNewFile` does the prompt, resolve and rename steps, with an early
  return at each `?`.
- `paths.dfy` (module `Paths`) gives a path as (directory, stem, extension).
  It also models the extension replacement applied before the rename.

The operator's answers and the result of the rename are the `World` a run
takes place in. A run prompts for at most one file (proved), so one answer
per prompt is enough. A failing prompt or a failing rename ends the run with
`Aborted`, as the `?` operators in `main` do.

The custom extension is used exactly as typed: the code does not trim it
and only tests it for emptiness (src/main.rs:59-63).

## Model

| member | source | states |
|---|---|---|
| Paths.WithExtension | src/main.rs:70-71 | the renamed path keeps the original directory and stem; its file name is the stem, a dot and the new extension (only the stem if the extension is empty) |
| Paths.OnlyExtensionIsReplaced | src/main.rs:70-71 | paths with the same directory and stem become the same path once given the same extension, whatever extension they had before |
| Formats.Resolve | src/main.rs:49-67 | resolution fails exactly when "Other" is chosen and the free-text prompt fails; every extension it yields is non-empty; the warning is written exactly for "Other" with empty text |
| Formats.WildcardUnreachable | src/main.rs:41-66 | every one of the six menu entries is caught by a named arm of the match, so the `_ => "txt"` arm is never taken; only the sixth entry asks for free text |
| Formats.NamedFormatsResolve | src/main.rs:49-54 | Rust, Python, HTML, JavaScript and C++ resolve to "rs", "py", "html", "js" and "cpp", with no warning, whatever the free-text prompt would answer |
| Formats.OtherResolves | src/main.rs:55-65 | "Other" with empty text resolves to "txt" with the warning; with non-empty text it resolves to exactly that text, with no warning |
| Formats.CustomTextOnlyForOther | src/main.rs:49-65 | for every entry except "Other", the reply to the free-text prompt does not affect the result |
| Formats.FixedExtensionsDistinct | src/main.rs:49-54 | the five named formats give five different extensions, none of them "txt" |
| Dispatch.Reports | src/main.rs:83 | the status lines written while waiting are backend error reports only |
| Dispatch.ReportsAppend | src/main.rs:83 | the reports of two stretches of input read one after the other are the reports of the first followed by those of the second |
| Dispatch.Respond | src/main.rs:33-79 | the new file is announced first, once; a failing selection or free-text prompt aborts with a prompt error, and a failing rename (after both prompts answered) with a rename error; a rename is of `path` to `WithExtension(path, e)` where `e` is the extension resolved from the operator's answers, so the directory and stem are kept and the extension is non-empty; the rename is reported last and only once; the empty-extension warning is written exactly when the resolution warned, and then once, right after the announcement |
| Dispatch.HandleNewFile | src/main.rs:33-79 | the prompt, resolve and rename steps, with an early return at each failing `?`, produce exactly the outcome and status lines of `Respond`, and so every promise stated for it |
| Dispatch.FirstEnd | src/main.rs:29-33 | the position where the loop leaves: every value before it is neither a timeout nor a creation with a path, and the value there (if any) is one |
| Dispatch.Run | src/main.rs:29-89 | the run reads up to and including the first timeout or creation with a path, and never past it; it is still waiting exactly when no such value exists and all input was read; a timeout outcome comes from a timeout; a rename is of the first path of a creation event, to the extension resolved from the operator's answers |
| Dispatch.WaitForFirstFile | src/main.rs:29-89 | the loop with its breaks gives exactly the outcome, status lines and number of receives that `Run` specifies |
| Dispatch.SkippedInputContinues | src/main.rs:31-83 | a non-creation event or a creation without paths is skipped silently; a backend error is reported; in both cases the wait goes on over the remaining input |
| Dispatch.FirstEndDecides | src/main.rs:29-89 | when the k-th value is the first that ends the wait, the run receives k+1 values, reports the backend errors before it in order, and that value alone decides the outcome |
| Dispatch.NoEndKeepsWaiting | src/main.rs:29-83 | with no timeout and no creation with a path, the run receives everything, reports every backend error, and is still waiting |
| Dispatch.LaterInputUnread | src/main.rs:79-86 | once the run has stopped (renamed, timed out or aborted), anything delivered afterwards is never read |
| Dispatch.Decisive | src/main.rs:31-86 | keeps every value that ends the wait, as often as it occurs, and nothing else; it is empty exactly when no value ends the wait, and otherwise starts with the value at which the loop leaves |
| Dispatch.DecisiveAppend | src/main.rs:31-86 | the filtering keeps order: filtering two stretches of input read one after the other gives the first's kept values followed by the second's |
| Dispatch.OnlyDecisiveInputMatters | src/main.rs:31-86 | removing all backend errors, non-creation events and pathless creations leaves the outcome unchanged, so errors never end the run |
| Dispatch.AtMostOneFilePerRun | src/main.rs:33-79 | a run announces at most one new file, writes the empty-extension warning at most once and reports at most one rename; it reports a rename exactly when its outcome is a rename |
| Dispatch.TimeoutRenamesNothing | src/main.rs:84-86 | a timed-out run writes only the earlier backend error reports and the no-activity notice: nothing is announced and nothing is renamed |
| Dispatch.CreationOfAnyKindQualifies | src/main.rs:32-33 | after any stretch of input that does not end the wait, a creation of any sub-kind (a folder included) with at least one path ends it: its first path is announced, the run ends renamed or aborted, and a rename is of that first path |
| Dispatch.NamedFormatRename | src/main.rs:49-72 | for a named format and a successful rename, the new file name is the stem, a dot and that format's fixed extension, and no warning is written |
| Dispatch.PythonScenario | src/main.rs:29-79 | a created `/tmp/watch/draft.tmp` with "Python" chosen is renamed to `/tmp/watch/draft.py` |
| Dispatch.EmptyCustomScenario | src/main.rs:55-79 | a created `/tmp/watch/note` with "Other" and empty text becomes `/tmp/watch/note.txt`, after the warning |

## Left out

- Command-line handling and the usage exit (src/main.rs:13-18): process plumbing outside the decision logic.
- Watcher construction and registration (src/main.rs:22-26): a foreign library and an OS notification backend. Its output is only the abstract input sequence, and a failure to set up the watch is not modelled.
- The 60-second receive timeout (src/main.rs:30): wall-clock behaviour. A timeout is one input element. The channel disconnecting gives the same `Err(_)` in the code and is folded into that element.
- The selection and free-text prompts (src/main.rs:43-47, 56-58): interactive terminal I/O. Their answers are inputs. A failure is the `Closed` reply. The selection is a position in the six-entry menu, since that is all the selection prompt returns. Any trimming the prompt library does itself is not part of this model.
- `fs::rename` (src/main.rs:72): a file-system side effect whose collision and overwrite rules belong to the OS. Whether it succeeds is an input of the run.
- Paths.WithExtension: path parsing is not modelled. A path is given already split into directory, stem and extension, and the new extension is stored as typed. The program itself appends the text to the file name, so a custom extension containing a dot (say "tar.gz") yields a name that the file system reads as a different stem and extension. A custom extension containing a path separator (say "x/y") depends on the Rust toolchain, which the source does not pin. Older standard libraries append it, so the new path points into another directory. Current ones document that `set_extension` panics on such an extension, so the program stops at src/main.rs:71, before `fs::rename`, and nothing is renamed. The model's `Renamed` outcome describes neither case. The model, and the "keeps the directory and stem" clauses of Dispatch.Respond and Dispatch.Run, hold only for the split form. A path with no file stem is not modelled either: `set_extension` does nothing on such a path, and printing its file name with `file_name().unwrap()` would panic.
- Coloured printing: the status lines are the `Notice` values of the log, without their text or colour.
