/** The lock file: whoever holds the lock may leave a tag in the file, by which the others see
    that they have to reload. */
module FileLocker {
  import opened Options

  const TAG_LENGTH := 64

  class LockFile {
    var content: string
    var holder: Option<nat>   // the process that has the lock

    constructor ()
      ensures content == "" && holder == None
    {
      content, holder := "", None;
    }
  }

  /** What Modified answers: whether to reload, and the tag remembered from now on. A file too
      short to hold a tag counts as modified and is not remembered. */
  function Seen(lw: string, content: string): (r: (bool, string)) {
    if |content| < |lw| then (true, lw) else (content[..|lw|] != lw, content[..|lw|])
  }

  /** The file after the first `n` bytes of a tag were written over its beginning. */
  function Stamped(content: string, tag: string, n: nat): string
    requires n <= |tag|
  {
    tag[..n] + if n <= |content| then content[n..] else ""
  }

  class Locker {
    const file: LockFile
    const pid: nat
    var lw: string     // the tag last seen in the file or written to it
    var locked: bool

    /** `randomID` is a fresh random tag. */
    constructor (file: LockFile, pid: nat, randomID: string)
      ensures this.file == file && this.pid == pid && lw == randomID && !locked
    {
      this.file, this.pid, lw, locked := file, pid, randomID, false;
    }

    /** Returns when the lock was free to take. */
    method Lock()
      requires file.holder.None?
      modifies this`locked, file`holder
      ensures locked && file.holder == Some(pid)
    {
      locked := true;
      file.holder := Some(pid);
    }

    method Unlock()
      requires locked && file.holder == Some(pid)
      modifies this`locked, file`holder
      ensures !locked && file.holder == None
    {
      file.holder := None;
      locked := false;
    }

    /** Leaves a new tag, of which the system may write only a part. */
    method Touch(randomID: string, written: nat) returns (ok: bool)
      requires written <= |randomID|
      modifies this`lw, file`content
      ensures ok == (written == |randomID|)
      ensures lw == randomID && file.content == Stamped(old(file.content), randomID, written)
      ensures |file.content| == if written <= |old(file.content)| then |old(file.content)| else written
      ensures forall i :: 0 <= i < |file.content| ==>
        file.content[i] == if i < written then randomID[i] else old(file.content)[i]
      ensures ok ==> !Seen(lw, file.content).0
    {
      lw := randomID;
      file.content := randomID[..written] + if written <= |file.content| then file.content[written..] else "";
      ok := written == |randomID|;
      assert ok ==> file.content[..|lw|] == lw;
    }

    method Modified() returns (modified: bool)
      modifies this`lw
      ensures modified == Seen(old(lw), file.content).0 && lw == Seen(old(lw), file.content).1
      // Not modified is a file that begins with the tag remembered; the tag it begins with, if it is
      // long enough for one, is remembered from now on.
      ensures !modified <==>
        |file.content| >= |old(lw)| && forall i :: 0 <= i < |old(lw)| ==> file.content[i] == old(lw)[i]
      ensures |lw| == |old(lw)|
      ensures forall i :: 0 <= i < |lw| ==>
        lw[i] == if |file.content| >= |old(lw)| then file.content[i] else old(lw)[i]
    {
      var id := if |file.content| < |lw| then file.content else file.content[..|lw|];
      if |id| != |lw| {
        return true;
      }
      var before := lw;
      lw := id;
      modified := lw != before;
    }
  }
}
