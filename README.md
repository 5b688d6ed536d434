# codeboxtool: a verified model

This project models the `codeboxtool` tool of the Streamlit chat assistant in
`streamlit_app/tools.py`. The tool runs a piece of code in a CodeBox sandbox
and looks at the one output record the sandbox returns:

- an `image/png` record adds an `image-<uuid>.png` name to the list of files
  the sandbox reports;
- an `error` record whose text matches
  `ModuleNotFoundError: No module named '(.*)'` is meant to make the tool install
  the named module and reply
  `<name> was missing but it has now been installed. Please try again.`. As
  written, the tool raises `NameError` at line 30 for every `error` record whose
  text contains `ModuleNotFoundError`, matching or not, because `re` is never
  imported (see "## Findings");
- every other case (and, in the intended code, an error the pattern does not
  match) gets the reply
  `files generated: <the file list>\ncode output: <the raw output>`.

The Dafny modules follow the structure of the tool:

- `Text` (`text.dfy`): Python's substring test `t in s`.
- `ModuleName` (`module_name.dfy`): the regular-expression search. It scans
  start positions from left to right. At the first position where the marker
  `ModuleNotFoundError: No module named '` is followed by a quote on the same
  line, group 1 runs up to the last quote on that line. `FirstLongest` states
  the same thing declaratively: the leftmost match, with the greedy `.*` taking
  the longest group.
- `ListRepr` (`list_repr.dfy`): the text `str(files)` gives a list of file names,
  and a reader that recovers the list from that text.
- `Sandbox` (`sandbox.dfy`): the CodeBox as a class. The `with` block is
  `Start`/`Stop`, and it has `Run`, `ListFiles` and `Install`. The code's result
  is fixed by a function given to the constructor. `Install` only appends to a
  ghost log, which records whether the box was still open.
- `Tools` (`tools.dfy`): `Respond` is the tool's decision as
  a function of the output record, the listed files and the uuid text.
  `CodeBoxTool` is the imperative tool, proved against `Respond`. The lemmas
  beside them state the tool's promises.

The uuid is a parameter: the caller passes in the text of a fresh `uuid4()`. The
sandbox is passed in unopened, standing for the `CodeBox()` built at line 14.

What the code does with the record, as the model keeps it:

- The reply is one string.
- An image's raw content is echoed in the reply. Line 25 clears
  `output_content`, but line 38 formats `output.content`.
- Nothing is decoded from base64.

The repair reply does not always look different from a report. It starts with
`files generated: ` exactly when the package name does, or when the name is
`files generated:` (`Tools.RetryLooksLikeReport`).

## Model

| member | source | states |
|---|---|---|
| Text.Contains | streamlit_app/tools.py:29 | `t in s` holds exactly when `t` occurs in `s` at some position |
| ModuleName.ModuleNotFound | streamlit_app/tools.py:30-33 | the search yields group 1 of the leftmost match with the greedy (longest) group, and yields nothing exactly when the pattern matches nowhere in the text |
| ModuleName.MatchAtIsLongest | streamlit_app/tools.py:30-33 | anchored at one position, the extraction returns the greedy group (the closing quote is the last quote on the marker's line); it returns nothing exactly when no closing quote fits there |
| ModuleName.SearchFromFinds | streamlit_app/tools.py:30-33 | scanning from position `i` returns the greedy group at the first matching position at or after `i`, and nothing exactly when the pattern matches nowhere from `i` on |
| ModuleName.FirstLongestUnique | streamlit_app/tools.py:30-33 | the leftmost greedy match fixes group 1 uniquely |
| ModuleName.ModuleNotFoundIsSearch | streamlit_app/tools.py:30-33 | the extracted name is `name` if and only if `name` is group 1 of the leftmost greedy match; there is no name if and only if the pattern matches nowhere |
| ModuleName.ModuleNameIsOneLine | streamlit_app/tools.py:31 | the extracted name never contains a newline, and no quote follows it on its line |
| ModuleName.ModuleNotFoundMentionsError | streamlit_app/tools.py:29-33 | whenever the pattern matches, the text contains `ModuleNotFoundError`, so the test at line 29 never blocks a match |
| ListRepr.Render | streamlit_app/tools.py:38 | for quote-free names, reading `str(files)` back gives `files` and leaves the text that follows the list untouched |
| ListRepr.ReadItemsJoin | streamlit_app/tools.py:38 | the quoted, comma-separated names of a list read back as exactly those names, followed by the text after the closing bracket |
| Tools.ImageName | streamlit_app/tools.py:21 | the name is `image-`, the whole id, then `.png`; one built from a uuid has 46 characters and no quote |
| Tools.Report | streamlit_app/tools.py:38 | the reply starts with `files generated: ` and ends with the raw output; with quote-free names a caller recovers both the file list and the output from it |
| Tools.RetryMessage | streamlit_app/tools.py:35 | a caller recovers the package name from the retry message |
| Tools.RetryLooksLikeReport | streamlit_app/tools.py:35-38 | the retry reply starts with `files generated: ` if and only if the package name does, or the name is `files generated:` |
| Tools.Respond | streamlit_app/tools.py:18-38 | the tool installs exactly when the output is an error the pattern matches, and then installs group 1 and replies with the retry message for it; otherwise the reply is the report of its file list and the raw output; the file list gains `image-<id>.png` for an image and is otherwise the listed files |
| Tools.ImageAddsOneFile | streamlit_app/tools.py:20-25 | an image output appends exactly `image-<id>.png` to the listed files and installs nothing; the reply is the report of that extended list and the raw content (not the cleared `output_content`), and with quote-free names it reads back as that list and content |
| Tools.OtherOutputKeepsFiles | streamlit_app/tools.py:27-38 | for any other output that installs nothing, the reply reads back as exactly the files `list_files` returned and the raw content |
| Tools.InstallsExactlyTheMissingModule | streamlit_app/tools.py:27-35 | `package` is installed if and only if the output is an error whose text the pattern matches with group `package`; the caller then reads `package` back from the reply |
| Tools.NoInstallOtherwise | streamlit_app/tools.py:27-38 | nothing is installed if and only if the type is not `error`, or the text lacks `ModuleNotFoundError` (the test at line 29), or the pattern does not match |
| Tools.InstallLog | streamlit_app/tools.py:34-35 | one call adds at most one install, and adds one exactly when the outcome names a package |
| Tools.CodeBoxTool | streamlit_app/tools.py:9-38 | the tool runs the code once, leaves the box closed, replies as `Respond` does on what the box produced and listed, and logs exactly the install `Respond` names (made on the closed box), so at most one install per call |
| Tools.RespondAsWritten | streamlit_app/tools.py:27-35 | as written, the tool raises exactly when the output is an error mentioning `ModuleNotFoundError`, and never installs anything |
| Tools.MissingImportBlocksRepair | streamlit_app/tools.py:29-35 | on `ModuleNotFoundError: No module named 'scikit-bio'`, the tool as written raises, while the intended tool installs `scikit-bio` |
| Sandbox.CodeBox.constructor | streamlit_app/tools.py:14 | a new box is closed, with empty run and install logs |
| Sandbox.CodeBox.Start | streamlit_app/tools.py:14 | entering the `with` block opens the box and changes nothing else |
| Sandbox.CodeBox.Stop | streamlit_app/tools.py:14-16 | leaving the `with` block closes the box and changes nothing else |
| Sandbox.CodeBox.Run | streamlit_app/tools.py:15 | running code returns the box's output record for it, adds the files it creates, and logs the code |
| Sandbox.CodeBox.ListFiles | streamlit_app/tools.py:16 | listing returns the box's current files |
| Sandbox.CodeBox.Install | streamlit_app/tools.py:34 | an install is appended to the log together with whether the box was open |

## Findings

| source | as written | input that shows it | evidently intended | confidence | as-written member | corrected member |
|---|---|---|---|---|---|---|
| streamlit_app/tools.py:30 | `re.search` is called, but `re` is never imported, so reaching line 30 raises `NameError` | an `error` output with content `ModuleNotFoundError: No module named 'scikit-bio'` | install `scikit-bio` and ask the caller to retry | not executed; high: lines 1-5 import no `re` | Tools.RespondAsWritten | Tools.Respond |

`Tools.MissingImportBlocksRepair` shows the discrepancy on that input.
`Tools.InstallsExactlyTheMissingModule` proves the intended property of
`Tools.Respond`. The rest of the model, `Tools.CodeBoxTool` included, uses
`Tools.Respond`.

## Left out

- ListRepr.Render: renders names the way Python's `repr` does only when a name holds no quote, backslash or unprintable character, because Python switches quoting style or escapes those. The round trips assume quote-free names.
- Sandbox.CodeBox.ListFiles: returns file names. The real `list_files` may return file objects, whose `repr` differs from a name's.
- Sandbox.CodeBox.Install: records the call only. Whether installing works on a box whose `with` block has ended (line 34 runs after the block closes at line 16) depends on the sandbox library, which is not part of this model. Whether the package survives into the next call's new `CodeBox()` is not modelled either.
- The sandbox runtime itself (`run`, `list_files`, `install`, start and stop) is a foreign library. It is modelled only as a class whose answers are given to it.
- Exceptions that `run` or `list_files` may raise are not modelled.
- `uuid4()` randomness: the uuid text is a parameter; `IsUuidText` states its canonical form.
- The `print` diagnostic at line 28, the `@tool` decorator and the docstring are left out. They have no effect on the reply.
- The base64 decoding is commented out at lines 22-23, so it is not modelled.
- `local_codebox_tool`, which `streamlit_app/app.py` imports, is not defined in `streamlit_app/tools.py`, and is not part of this model.
- The Streamlit UI, the LangChain agent wiring in `streamlit_app/app.py` and the `playground/` scripts are left out. They are interface glue over external libraries.
- A process-wide session, an artifact list, a code log and a structured result mapping do not exist in this code, so they are not modelled.
- The regular-expression semantics cover only the one pattern the tool uses.
