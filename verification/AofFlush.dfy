/**
 Writing the log buffer to the file: one write, which may be postponed, fail, or
 be cut short, and then undone or not.
 */
module AofFlush {
  import opened Wrappers
  import opened AofCodec

  datatype Policy = Always | Everysec | No

  /** The file behind aof_fd, aof_buf, aof_current_size, aof_flush_postponed_start, aof_last_write_status. */
  datatype Log = Log(file: seq<Byte>, buf: seq<Byte>, size: nat, postponed: int, writeOk: bool)

  /** What a call meets: a pending fsync, the time, what write returns, whether ftruncate succeeds. */
  datatype Call = Call(force: bool, pending: bool, now: int, result: int, truncates: bool)

  /** How many bytes the write puts into the file: it takes no more than it is offered. */
  function Written(l: Log, c: Call): nat {
    if c.result <= 0 then 0 else if c.result < |l.buf| then c.result else |l.buf|
  }

  /** The write is put off: an fsync runs in the background and we have not waited two seconds for it. */
  predicate Postpones(l: Log, p: Policy, c: Call) {
    p == Everysec && !c.force && c.pending && (l.postponed == 0 || c.now - l.postponed < 2)
  }

  ghost predicate LogOk(l: Log) { l.size == |l.file| }

  ghost predicate Conserved(l: Log, l': Log) { l'.file + l'.buf == l.file + l.buf && LogOk(l') }

  /** The write is incomplete and the policy is to sync always: the process ends. */
  predicate Exits(l: Log, p: Policy, c: Call) {
    l.buf != [] && !Postpones(l, p, c) && Written(l, c) != |l.buf| && p == Always
  }

  /** The log after a call that does not end the process. */
  function AfterFlush(l: Log, p: Policy, c: Call): Log {
    if l.buf == [] then l
    else if Postpones(l, p, c) then l.(postponed := if l.postponed == 0 then c.now else l.postponed)
    else
      var n := Written(l, c);
      if n == |l.buf| then Log(l.file + l.buf, [], l.size + n, 0, true)
      else if c.result >= 0 && c.truncates then l.(postponed := 0, writeOk := false)
      else Log(l.file + l.buf[..n], l.buf[n..], l.size + n, 0, false)
  }

  /** Whatever the write does, no byte is lost, doubled or moved, and the size is that of the file. */
  lemma {:induction false} FlushConserves(l: Log, p: Policy, c: Call)
    requires LogOk(l)
    ensures Conserved(l, AfterFlush(l, p, c))
    ensures l.file <= AfterFlush(l, p, c).file
    ensures !Postpones(l, p, c) && Written(l, c) == |l.buf| ==> AfterFlush(l, p, c).buf == []
  {
    var n := Written(l, c);
    assert l.file + l.buf[..n] + l.buf[n..] == l.file + l.buf;
    assert l.file + l.buf + [] == l.file + l.buf;
  }

  /**
   The write waits exactly when an fsync of the policy everysec is pending, nobody
   forces it, and it has waited less than two seconds; the first wait notes the time.
   */
  lemma {:induction false} FlushWaitsIff(l: Log, p: Policy, c: Call)
    requires l.buf != []
    ensures Postpones(l, p, c) <==> p == Everysec && c.pending && !c.force && (l.postponed == 0 || c.now < l.postponed + 2)
    ensures Postpones(l, p, c) ==> AfterFlush(l, p, c) == l.(postponed := if l.postponed == 0 then c.now else l.postponed)
  {
  }

  /** A forced flush, or one without a pending fsync, writes; if the write is complete the whole buffer is in the file. */
  lemma {:induction false} FlushWrites(l: Log, p: Policy, c: Call)
    requires c.force || !c.pending || p != Everysec || (l.postponed != 0 && c.now - l.postponed >= 2)
    ensures l.buf != [] ==> AfterFlush(l, p, c).postponed == 0
    ensures c.result >= |l.buf| ==> AfterFlush(l, p, c).buf == [] && AfterFlush(l, p, c).file == l.file + l.buf && (l.buf != [] ==> AfterFlush(l, p, c).writeOk)
    ensures 0 <= c.result < |l.buf| && !c.truncates ==>
              AfterFlush(l, p, c).file == l.file + l.buf[..c.result] && AfterFlush(l, p, c).buf == l.buf[c.result..] && !AfterFlush(l, p, c).writeOk
    ensures l.buf != [] && c.result < |l.buf| && (c.result < 0 || c.truncates) ==>
              AfterFlush(l, p, c).file == l.file && AfterFlush(l, p, c).buf == l.buf && !AfterFlush(l, p, c).writeOk
  {
    assert l.file + l.buf[..0] == l.file && l.buf[0..] == l.buf;
  }

  /** The process ends exactly when the policy is always and the write takes less than the buffer. */
  lemma {:induction false} ExitsIff(l: Log, p: Policy, c: Call)
    ensures Exits(l, p, c) <==> p == Always && l.buf != [] && c.result < |l.buf|
  {
  }

  class AppendLog {
    const policy: Policy
    var file: seq<Byte>
    var buf: seq<Byte>
    var size: nat
    var postponed: int
    var writeOk: bool

    function View(): Log
      reads this
    {
      Log(file, buf, size, postponed, writeOk)
    }

    constructor (policy: Policy, file: seq<Byte>)
      ensures this.policy == policy && View() == Log(file, [], |file|, 0, true) && LogOk(View())
    {
      this.policy := policy;
      this.file, buf, size, postponed, writeOk := file, [], |file|, 0, true;
    }

    /** flushAppendOnlyFile: whether the process goes on. */
    method FlushAppendOnlyFile(c: Call) returns (goesOn: bool)
      requires LogOk(View())
      modifies this`file, this`buf, this`size, this`postponed, this`writeOk
      ensures goesOn == !Exits(old(View()), policy, c)
      ensures goesOn ==> View() == AfterFlush(old(View()), policy, c) && Conserved(old(View()), View())
    {
      FlushConserves(View(), policy, c);
      if buf == [] { return true; }
      if policy == Everysec && !c.force {
        if c.pending {
          if postponed == 0 {
            postponed := c.now;
            return true;
          } else if c.now - postponed < 2 {
            return true;
          }
        }
      }
      var n: int := Written(View(), c);
      if c.result < 0 { n := -1; }
      if n > 0 { file := file + buf[..n]; }
      assert file == old(file) + buf[..Written(old(View()), c)];
      postponed := 0;
      if n != |buf| {
        if n != -1 && c.truncates {
          file := file[..size];
          assert file == old(file);
          n := -1;
        }
        if policy == Always { return false; }
        writeOk := false;
        if n > 0 {
          size := size + n;
          buf := buf[n..];
        }
        return true;
      }
      writeOk := true;
      size := size + n;
      buf := [];
      return true;
    }
  }
}
