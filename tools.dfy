/**
 * The `codeboxtool` tool: run one piece of code in a sandbox, then either report
 * the files and the output, or, when the output is a missing-module error,
 * install the module and ask the caller to try again.
 */
module Tools {
  import opened Wrappers
  import opened Text
  import opened ModuleName
  import opened ListRepr
  import opened Sandbox

  const ImagePng: string := "image/png"
  const ErrorKind: string := "error"
  /** The substring tested before the regular expression is tried. */
  const Guard: string := "ModuleNotFoundError"
  const ReportHead: string := "files generated: "
  const ReportSep: string := "\ncode output: "
  const RetrySuffix: string := " was missing" + " but it has now been installed. Please try again."

  /**
   * The name given to an image output; `id` is the text of a fresh `uuid4()`.
   * The name keeps the id whole between `image-` and `.png`, and one built from
   * a uuid has 46 characters and no quote.
   */
  function ImageName(id: string): (f: string)
    ensures |f| == |id| + 10 && StartsWith(f, "image-") && f[6..|f| - 4] == id && f[|f| - 4..] == ".png"
    ensures IsUuidText(id) ==> |f| == 46 && Unquoted([f])
  {
    var f := "image-" + id + ".png";
    assert forall c :: 0 <= c < |id| ==> f[c + 6] == id[c];
    f
  }

  /** The canonical text form of a version-4 UUID, as `str(uuid4())` gives it. */
  ghost predicate IsUuidText(id: string)
  {
    |id| == 36 && id[14] == '4' && id[19] in "89ab" &&
    forall i :: 0 <= i < 36 ==>
      if i == 8 || i == 13 || i == 18 || i == 23 then id[i] == '-'
      else '0' <= id[i] <= '9' || 'a' <= id[i] <= 'f'
  }

  /**
   * The reply of every path that does not install: the file list, then the raw
   * output. With quote-free names a caller recovers both from the reply.
   */
  function Report(files: seq<string>, content: string): (r: string)
    ensures |r| >= |ReportHead| + |content| && StartsWith(r, ReportHead) && r[|r| - |content|..] == content
    ensures Unquoted(files) ==> ReadReport(r) == Some((files, content))
  {
    var r := ReportHead + Render(files) + ReportSep + content;
    assert r[|ReportHead|..] == Render(files) + (ReportSep + content);
    assert (ReportSep + content)[|ReportSep|..] == content;
    r
  }

  /** How a caller recovers the file list and the output from a report. */
  function ReadReport(r: string): Option<(seq<string>, string)>
  {
    if !StartsWith(r, ReportHead) then None
    else
      match ReadList(r[|ReportHead|..])
      case None => None
      case Some(p) =>
        if StartsWith(p.1, ReportSep) then Some((p.0, p.1[|ReportSep|..])) else None
  }

  /** The reply that asks the caller to run the code again; the caller reads the package back from it. */
  function RetryMessage(package: string): (r: string)
    ensures ReadRetry(r) == Some(package)
  {
    var r := package + RetrySuffix;
    assert r[|r| - |RetrySuffix|..] == RetrySuffix;
    assert r[..|r| - |RetrySuffix|] == package;
    r
  }

  function ReadRetry(r: string): Option<string>
  {
    if |r| >= |RetrySuffix| && r[|r| - |RetrySuffix|..] == RetrySuffix
    then Some(r[..|r| - |RetrySuffix|])
    else None
  }

  /**
   * A retry reply starts like a report only when the package name itself does,
   * or when the name is `files generated:` and the suffix supplies the space.
   */
  lemma RetryLooksLikeReport(package: string)
    ensures StartsWith(RetryMessage(package), ReportHead) <==>
      StartsWith(package, ReportHead) || package == "files generated:"
  {
    var m := RetryMessage(package);
    if |package| >= |ReportHead| {
      assert m[..|ReportHead|] == package[..|ReportHead|];
    } else if StartsWith(m, ReportHead) {
      ShortNameLooksLikeReport(package);
    }
  }

  /** A name shorter than the report's head gives a report-like retry only as `files generated:`. */
  lemma ShortNameLooksLikeReport(package: string)
    requires |package| < |ReportHead| && StartsWith(package + RetrySuffix, ReportHead)
    ensures package == "files generated:"
  {
    var m := package + RetrySuffix;
    var n := |package|;
    assert m[n] == RetrySuffix[0] == ' ';
    assert ReportHead[n] == ' ';
    assert n == 16 by {
      assert n == 5 || n == 16;
      assert m[6] == ReportHead[6];
    }
    assert package == m[..16] == ReportHead[..16];
  }

  /** What one call of the tool produces: its reply, the file list it built, and the install it asked for. */
  datatype Outcome = Outcome(reply: string, files: seq<string>, install: Option<string>)

  /**
   * The tool's decision for one output record `out` when the sandbox lists
   * `listed` and the fresh id is `id`. The regular expression is evaluated as
   * the source evidently intends (with `re` imported).
   */
  function Respond(out: Output, listed: seq<string>, id: string): (o: Outcome)
    ensures o.install.Some? <==> out.kind == ErrorKind && ModuleNotFound(out.content).Some?
    ensures o.install.Some? ==>
      o.install == ModuleNotFound(out.content) && o.reply == RetryMessage(o.install.value)
    ensures o.install.None? ==> o.reply == Report(o.files, out.content)
    ensures o.files == if out.kind == ImagePng then listed + [ImageName(id)] else listed
  {
    ModuleNotFoundMentionsError(out.content);
    if out.kind == ImagePng then
      var files := listed + [ImageName(id)];
      Outcome(Report(files, out.content), files, None)
    else if out.kind == ErrorKind && Contains(out.content, Guard) && ModuleNotFound(out.content).Some? then
      var package := ModuleNotFound(out.content).value;
      Outcome(RetryMessage(package), listed, Some(package))
    else
      Outcome(Report(listed, out.content), listed, None)
  }

  /**
   * An image output adds exactly one file, named after the id, installs nothing,
   * and still echoes the raw content; with quote-free names the caller reads back
   * the extended list and that content.
   */
  lemma ImageAddsOneFile(out: Output, listed: seq<string>, id: string)
    requires out.kind == ImagePng
    ensures Respond(out, listed, id).files == listed + [ImageName(id)]
    ensures Respond(out, listed, id).install == None
    ensures Respond(out, listed, id).reply == Report(listed + [ImageName(id)], out.content)
    ensures Unquoted(listed) && IsUuidText(id) ==>
      ReadReport(Respond(out, listed, id).reply) == Some((listed + [ImageName(id)], out.content))
  {
    if Unquoted(listed) && IsUuidText(id) {
      var files := listed + [ImageName(id)];
      assert Unquoted(files) by {
        forall i, c | 0 <= i < |files| && 0 <= c < |files[i]| ensures files[i][c] != '\'' {
          if i == |listed| {
            assert files[i] == [ImageName(id)][0];
          } else {
            assert files[i] == listed[i];
          }
        }
      }
    }
  }

  /**
   * For any other output that installs nothing, a caller reads back from the
   * reply exactly the files `list_files` returned and the raw content.
   */
  lemma OtherOutputKeepsFiles(out: Output, listed: seq<string>, id: string)
    requires out.kind != ImagePng
    ensures Respond(out, listed, id).install == None && Unquoted(listed) ==>
      ReadReport(Respond(out, listed, id).reply) == Some((listed, out.content))
  {
  }

  /**
   * The install condition of `Respond`, for one named package: the tool installs
   * `package` exactly when the output is an error whose text the regular
   * expression matches with group `package`. The caller then reads `package`
   * back from the reply.
   */
  lemma InstallsExactlyTheMissingModule(out: Output, listed: seq<string>, id: string, package: string)
    ensures Respond(out, listed, id).install == Some(package) <==>
      out.kind == ErrorKind && ModuleNotFound(out.content) == Some(package)
    ensures Respond(out, listed, id).install == Some(package) ==>
      ReadRetry(Respond(out, listed, id).reply) == Some(package)
  {
  }

  /**
   * Nothing is installed exactly when the output is not an error, or does not
   * mention `ModuleNotFoundError`, or the regular expression does not match:
   * the guard tested before the search keeps the tool's behaviour unchanged.
   */
  lemma NoInstallOtherwise(out: Output, listed: seq<string>, id: string)
    ensures Respond(out, listed, id).install == None <==>
      out.kind != ErrorKind || !Contains(out.content, Guard) || ModuleNotFound(out.content) == None
  {
  }

  /** The calls to `install` one outcome adds to the sandbox's log; the box is closed by then. */
  function InstallLog(o: Outcome): (log: seq<InstallCall>)
    ensures |log| <= 1
    ensures log == [] <==> o.install.None?
  {
    match o.install
    case None => []
    case Some(p) => [InstallCall(p, false)]
  }

  /**
   * `codeboxtool(code)`. The caller hands in an unopened sandbox, standing for
   * `CodeBox()`, and the text of the fresh uuid.
   */
  method CodeBoxTool(box: CodeBox, code: string, id: string) returns (reply: string)
    requires !box.open
    modifies box
    ensures !box.open
    ensures box.ran == old(box.ran) + [code]
    ensures box.files == old(box.files) + box.respond(code).created
    ensures reply == Respond(box.respond(code).output, box.files, id).reply
    ensures box.installed == old(box.installed) + InstallLog(Respond(box.respond(code).output, box.files, id))
    ensures |box.installed| <= |old(box.installed)| + 1
  {
    box.Start();
    var output := box.Run(code);
    var outputFiles := box.ListFiles();
    box.Stop();

    var outputContent := output.content;
    if output.kind == ImagePng {
      var filename := ImageName(id);
      outputFiles := outputFiles + [filename];
      // cleared, but the reply below uses the raw content all the same
      outputContent := "";
    } else if output.kind == ErrorKind {
      if Contains(output.content, Guard) {
        var package := ModuleNotFound(output.content);
        if package.Some? {
          box.Install(package.value);
          return RetryMessage(package.value);
        }
      }
    }
    reply := Report(outputFiles, output.content);
  }

  /** A call of the tool as written: it returns an outcome or raises an exception. */
  datatype ToolRun = Returned(outcome: Outcome) | Raised(exception: string)

  /**
   * The tool as written: `re` is never imported, so reaching the regular
   * expression raises `NameError` instead of installing anything.
   */
  function RespondAsWritten(out: Output, listed: seq<string>, id: string): (run: ToolRun)
    ensures run.Raised? <==> out.kind == ErrorKind && Contains(out.content, Guard)
    ensures run.Returned? ==> run.outcome.install == None
  {
    if out.kind == ErrorKind && Contains(out.content, Guard) then
      Raised("NameError: name 're' is not defined")
    else
      Returned(Respond(out, listed, id))
  }

  /**
   * On the error the repair exists for, the tool as written raises, while the
   * intended tool installs `scikit-bio` and asks for a retry.
   */
  lemma MissingImportBlocksRepair(listed: seq<string>, id: string)
    ensures RespondAsWritten(Output(ErrorKind, "ModuleNotFoundError: No module named 'scikit-bio'"), listed, id).Raised?
    ensures Respond(Output(ErrorKind, "ModuleNotFoundError: No module named 'scikit-bio'"), listed, id).install == Some("scikit-bio")
  {
    var s := "ModuleNotFoundError: No module named 'scikit-bio'";
    var name := "scikit-bio";
    assert s[..|Marker|] == Marker;
    assert s[|Marker|..|Marker| + |name|] == name;
    assert Candidate(s, 0, name);
    assert Longest(s, 0, name);
    assert FirstLongest(s, name);
    ModuleNotFoundIsSearch(s, name);
    ModuleNotFoundMentionsError(s);
  }
}
