/** The POSIX file calls the sink and the Ogg framer make (creat, write,
    close, unlink, and xwrite from the sink's io.h), modelled as append-only
    octet logs. The result of every write call comes from a script fixed when
    the file is created, so that failures can be injected anywhere. */
module FileIo {
  import opened Bytes

  /** An error xwrite reports: anything but 0. */
  type ErrCode = e: int | e != 0 witness -1

  /** What the next write call on a file does. */
  datatype Outcome =
    | Done                // every octet is written
    | Partial(count: nat) // write(2) stops after `count` octets
    | Error(code: ErrCode)

  /** A file's octets so far and the outcomes of its remaining write calls. */
  datatype FileLog = FileLog(contents: seq<byte>, pending: seq<Outcome>)

  /** The outcome the next write call gets; once the script is used up every
      call succeeds. */
  function Next(f: FileLog): Outcome
  {
    if f.pending == [] then Done else f.pending[0]
  }

  function Advance(f: FileLog, contents: seq<byte>): FileLog
  {
    FileLog(contents, if f.pending == [] then [] else f.pending[1..])
  }

  /** xwrite: writes all of data and returns 0, or returns nonzero. A failed
      call leaves the file as it was. */
  function XWriteResult(f: FileLog, data: seq<byte>): (FileLog, int)
  {
    match Next(f)
    case Error(code) => (Advance(f, f.contents), code as int)
    case _ => (Advance(f, f.contents + data), 0)
  }

  /** write(2): the count of octets written, or -1. */
  function WriteResult(f: FileLog, data: seq<byte>): (FileLog, int)
  {
    match Next(f)
    case Error(_) => (Advance(f, f.contents), -1)
    case Partial(n) =>
      if n < |data| then (Advance(f, f.contents + data[..n]), n)
      else (Advance(f, f.contents + data), |data|)
    case Done => (Advance(f, f.contents + data), |data|)
  }

  /** xwrite calls issued in order, stopping at the first that fails; the
      result is that call's error, or 0. */
  function Issue(f: FileLog, writes: seq<seq<byte>>): (FileLog, int)
    decreases |writes|
  {
    if writes == [] then (f, 0)
    else
      var (g, ret) := XWriteResult(f, writes[0]);
      if ret != 0 then (g, ret) else Issue(g, writes[1..])
  }

  function Concat(writes: seq<seq<byte>>): seq<byte>
  {
    if writes == [] then [] else writes[0] + Concat(writes[1..])
  }

  /** The bytes of a + b are the bytes of a, then those of b. */
  lemma {:induction false} ConcatAppend(a: seq<seq<byte>>, b: seq<seq<byte>>)
    ensures Concat(a + b) == Concat(a) + Concat(b)
    decreases |a|
  {
    if a == [] {
      assert a + b == b;
    } else {
      assert (a + b)[1..] == a[1..] + b;
      ConcatAppend(a[1..], b);
    }
  }

  /** Issuing a + b is issuing a, then, if all of a succeeded, issuing b. */
  lemma {:induction false} IssueAppend(f: FileLog, a: seq<seq<byte>>, b: seq<seq<byte>>)
    ensures Issue(f, a + b)
         == (var (g, ret) := Issue(f, a); if ret != 0 then (g, ret) else Issue(g, b))
    decreases |a|
  {
    if a == [] {
      assert a + b == b;
    } else {
      assert (a + b)[1..] == a[1..] + b;
      IssueAppend(XWriteResult(f, a[0]).0, a[1..], b);
    }
  }

  /** The file receives at most the octets of the writes, in order, and all of
      them exactly when the result is 0. Whatever happens, one outcome of the
      script is used per call issued. */
  lemma {:induction false} IssueContents(f: FileLog, writes: seq<seq<byte>>)
    ensures var (g, ret) := Issue(f, writes);
      exists k :: 0 <= k <= |writes| && g.contents == f.contents + Concat(writes[..k])
        && (ret == 0 <==> k == |writes|)
    decreases |writes|
  {
    if writes != [] {
      var (g1, r1) := XWriteResult(f, writes[0]);
      if r1 != 0 {
        assert g1.contents == f.contents + Concat(writes[..0]);
      } else {
        IssueContents(g1, writes[1..]);
        var (g, ret) := Issue(g1, writes[1..]);
        var k :| 0 <= k <= |writes[1..]| && g.contents == g1.contents + Concat(writes[1..][..k])
          && (ret == 0 <==> k == |writes[1..]|);
        assert writes[..k + 1][1..] == writes[1..][..k];
        assert g.contents == f.contents + Concat(writes[..k + 1]);
      }
    } else {
      assert f.contents == f.contents + Concat(writes[..0]);
    }
  }

  /** When none of the next outcomes is an error, every write goes through. */
  lemma {:induction false} IssueNoErrors(f: FileLog, writes: seq<seq<byte>>)
    requires forall i :: 0 <= i < |f.pending| ==> !f.pending[i].Error?
    ensures Issue(f, writes).1 == 0
    ensures Issue(f, writes).0.contents == f.contents + Concat(writes)
    decreases |writes|
  {
    if writes != [] {
      var g := XWriteResult(f, writes[0]).0;
      assert forall i :: 0 <= i < |g.pending| ==> g.pending[i] == f.pending[i + 1];
      IssueNoErrors(g, writes[1..]);
    }
  }

  /** An open file descriptor together with the file it names. */
  class Fd {
    var contents: seq<byte>
    var pending: seq<Outcome>
    var isOpen: bool
    /** Whether the file still has its name (unlink removes it). */
    var linked: bool

    function Log(): FileLog
      reads this
    {
      FileLog(contents, pending)
    }

    constructor (script: seq<Outcome>)
      ensures contents == [] && pending == script && isOpen && linked
    {
      contents := [];
      pending := script;
      isOpen := true;
      linked := true;
    }

    /** xwrite(fd, data, len). */
    method XWrite(data: seq<byte>) returns (ret: int)
      requires isOpen
      modifies this
      ensures (Log(), ret) == XWriteResult(old(Log()), data)
      ensures isOpen == old(isOpen) && linked == old(linked)
    {
      var next := Next(Log());
      if next.Error? {
        ret := next.code;
      } else {
        contents := contents + data;
        ret := 0;
      }
      pending := if pending == [] then [] else pending[1..];
    }

    /** write(fd, data, len). */
    method Write(data: seq<byte>) returns (ret: int)
      requires isOpen
      modifies this
      ensures (Log(), ret) == WriteResult(old(Log()), data)
      ensures isOpen == old(isOpen) && linked == old(linked)
    {
      var next := Next(Log());
      match next {
        case Error(_) =>
          ret := -1;
        case Partial(n) =>
          if n < |data| {
            contents := contents + data[..n];
            ret := n;
          } else {
            contents := contents + data;
            ret := |data|;
          }
        case Done =>
          contents := contents + data;
          ret := |data|;
      }
      pending := if pending == [] then [] else pending[1..];
    }

    /** close(fd). */
    method Close()
      modifies this
      ensures !isOpen && contents == old(contents) && pending == old(pending) && linked == old(linked)
    {
      isOpen := false;
    }

    /** unlink(name): the file loses its name. */
    method Unlink()
      modifies this
      ensures !linked && contents == old(contents) && pending == old(pending) && isOpen == old(isOpen)
    {
      linked := false;
    }
  }

  /** creat(name, 0600): a new empty file, or -1 (null) when `created` is false. */
  method Creat(created: bool, script: seq<Outcome>) returns (fd: Fd?)
    ensures created <==> fd != null
    ensures fd != null ==> fresh(fd) && fd.contents == [] && fd.pending == script && fd.isOpen && fd.linked
  {
    if created {
      fd := new Fd(script);
    } else {
      fd := null;
    }
  }
}
