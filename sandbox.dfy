/**
 * The code sandbox the tool talks to, reduced to what the tool uses: `run`,
 * `list_files`, `install` and the `with` block that starts and stops it. What
 * the sandbox answers to a piece of code is fixed when the box is built, so the
 * model of the tool can say what it does with any answer.
 */
module Sandbox {

  /** One output record: its `type` tag and its textual `content`. */
  datatype Output = Output(kind: string, content: string)

  /** What running one piece of code produces: the output record and the files it writes. */
  datatype Execution = Execution(output: Output, created: seq<string>)

  /** One call of `install`, and whether the box was still open when it was made. */
  datatype InstallCall = InstallCall(package: string, boxOpen: bool)

  class CodeBox {
    /** The sandbox's answer to each piece of code. */
    const respond: string -> Execution
    /** The files the sandbox holds. */
    var files: seq<string>
    /** Inside the `with` block. */
    var open: bool
    /** Every piece of code run so far. */
    ghost var ran: seq<string>
    /** Every install requested so far. */
    ghost var installed: seq<InstallCall>

    constructor (respond: string -> Execution, files: seq<string>)
      ensures this.respond == respond && this.files == files
      ensures !open && ran == [] && installed == []
    {
      this.respond := respond;
      this.files := files;
      open := false;
      ran := [];
      installed := [];
    }

    /** Entering the `with` block starts the sandbox. */
    method Start()
      modifies this
      ensures open
      ensures files == old(files) && ran == old(ran) && installed == old(installed)
    {
      open := true;
    }

    /** Leaving the `with` block stops it. */
    method Stop()
      modifies this
      ensures !open
      ensures files == old(files) && ran == old(ran) && installed == old(installed)
    {
      open := false;
    }

    method Run(code: string) returns (out: Output)
      requires open
      modifies this
      ensures out == respond(code).output
      ensures files == old(files) + respond(code).created
      ensures ran == old(ran) + [code]
      ensures open && installed == old(installed)
    {
      out := respond(code).output;
      files := files + respond(code).created;
      ran := ran + [code];
    }

    method ListFiles() returns (names: seq<string>)
      requires open
      ensures names == files
    {
      names := files;
    }

    /** Recorded only: what installing does inside the sandbox is not modelled. */
    method Install(package: string)
      modifies this
      ensures installed == old(installed) + [InstallCall(package, old(open))]
      ensures files == old(files) && ran == old(ran) && open == old(open)
    {
      installed := installed + [InstallCall(package, open)];
    }
  }
}
