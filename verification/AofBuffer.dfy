/**
 The rewrite buffer: the log written while a child rewrites the file, kept in a
 list of fixed-size blocks that fills at one end and drains at the other.
 */
module AofBuffer {
  import opened Wrappers
  import opened AofCodec

  const BLOCK_SIZE := 10485760

  /** A block: the bytes in use, and the room the block still counts as free. */
  datatype Block = Block(buf: seq<Byte>, free: nat)

  ghost predicate BlockOk(b: Block) { |b.buf| + b.free <= BLOCK_SIZE }

  /** Room is not given back when a block drains: used and free together never exceed the block. */
  ghost predicate BlocksOk(blocks: seq<Block>) { forall i :: 0 <= i < |blocks| ==> BlockOk(blocks[i]) }

  function Bytes(blocks: seq<Block>): seq<Byte>
    decreases |blocks|
  {
    if blocks == [] then [] else blocks[0].buf + Bytes(blocks[1..])
  }

  lemma {:induction false} BytesAppend(a: seq<Block>, b: seq<Block>)
    ensures Bytes(a + b) == Bytes(a) + Bytes(b)
    decreases |a|
  {
    if a == [] {
      assert a + b == b;
    } else {
      BytesAppend(a[1..], b);
      assert (a + b)[1..] == a[1..] + b;
    }
  }

  /** Data put at the end of the last block is data put at the end of the buffer. */
  lemma {:induction false} BytesLast(blocks: seq<Block>, b: Block, s: seq<Byte>)
    requires blocks != [] && b.buf == blocks[|blocks| - 1].buf + s
    ensures Bytes(blocks[|blocks| - 1 := b]) == Bytes(blocks) + s
  {
    var front, last := blocks[..|blocks| - 1], blocks[|blocks| - 1];
    BytesAppend(front, [last]);
    BytesAppend(front, [b]);
    assert front + [last] == blocks && front + [b] == blocks[|blocks| - 1 := b];
    assert Bytes([last]) == last.buf + Bytes([]) == last.buf && Bytes([b]) == b.buf + Bytes([]) == b.buf;
  }

  /** The first n bytes of the first block taken out. */
  function Drained(blocks: seq<Block>, n: nat): seq<Block>
    requires blocks != [] && n <= |blocks[0].buf|
  {
    blocks[0 := blocks[0].(buf := blocks[0].buf[n..])]
  }

  lemma {:induction false} DrainFirst(blocks: seq<Block>, n: nat, sent: seq<Byte>)
    requires blocks != [] && n <= |blocks[0].buf| && BlocksOk(blocks)
    ensures sent + blocks[0].buf[..n] + Bytes(Drained(blocks, n)) == sent + Bytes(blocks) && BlocksOk(Drained(blocks, n))
  {
    var b, rest := blocks[0], Bytes(blocks[1..]);
    assert Drained(blocks, n)[1..] == blocks[1..];
    assert sent + b.buf[..n] + (b.buf[n..] + rest) == sent + (b.buf + rest);
  }

  lemma {:induction false} DropEmpty(blocks: seq<Block>)
    requires blocks != [] && blocks[0].buf == [] && BlocksOk(blocks)
    ensures Bytes(blocks[1..]) == Bytes(blocks) && BlocksOk(blocks[1..])
  {
    assert [] + Bytes(blocks[1..]) == Bytes(blocks[1..]);
  }

  lemma {:induction false} FillLast(blocks: seq<Block>, n: nat, before: seq<Byte>, put: seq<Byte>, rest: seq<Byte>)
    requires blocks != [] && BlocksOk(blocks) && n <= |rest| && n <= blocks[|blocks| - 1].free && Bytes(blocks) == before + put
    ensures var last := blocks[|blocks| - 1];
            var filled := blocks[|blocks| - 1 := Block(last.buf + rest[..n], last.free - n)];
            BlocksOk(filled) && Bytes(filled) == before + (put + rest[..n]) && put + rest[..n] + rest[n..] == put + rest
  {
    var last := blocks[|blocks| - 1];
    BytesLast(blocks, Block(last.buf + rest[..n], last.free - n), rest[..n]);
    assert before + put + rest[..n] == before + (put + rest[..n]);
  }

  lemma {:induction false} AddBlock(blocks: seq<Block>)
    requires BlocksOk(blocks)
    ensures BlocksOk(blocks + [Block([], BLOCK_SIZE)]) && Bytes(blocks + [Block([], BLOCK_SIZE)]) == Bytes(blocks)
  {
    BytesAppend(blocks, [Block([], BLOCK_SIZE)]);
    assert Bytes([Block([], BLOCK_SIZE)]) == [] && Bytes(blocks) + [] == Bytes(blocks);
  }

  lemma {:induction false} NoBytes(blocks: seq<Block>)
    requires blocks == []
    ensures Bytes(blocks) == []
  {
  }

  /** Writing some of block i after the blocks before it. */
  lemma {:induction false} WriteSome(blocks: seq<Block>, i: nat, n: nat, written: seq<Byte>, all: seq<Byte>)
    requires i < |blocks| && n <= |blocks[i].buf| && written + Bytes(blocks[i..]) == all
    ensures written + blocks[i].buf[..n] <= all
    ensures n == |blocks[i].buf| ==> written + blocks[i].buf + Bytes(blocks[i + 1..]) == all
  {
    var b, rest := blocks[i], Bytes(blocks[i + 1..]);
    assert blocks[i..][1..] == blocks[i + 1..];
    assert written + (b.buf + rest) == written + b.buf[..n] + (b.buf[n..] + rest);
    if n == |b.buf| { assert b.buf[..n] == b.buf && b.buf[n..] + rest == rest; }
  }

  class RewriteBuffer {
    var blocks: seq<Block>

    ghost predicate Valid()
      reads this
    {
      BlocksOk(blocks)
    }

    constructor ()
      ensures Valid() && Bytes(blocks) == []
    {
      blocks := [];
    }

    /** aofRewriteBufferAppend. */
    method Append(s: seq<Byte>)
      requires Valid()
      modifies this
      ensures Valid() && Bytes(blocks) == old(Bytes(blocks)) + s
    {
      hide Bytes, BlocksOk;
      var rest := s;
      ghost var put := [];
      while rest != []
        invariant Valid() && put + rest == s && Bytes(blocks) == old(Bytes(blocks)) + put
        decreases |rest|, if blocks != [] && blocks[|blocks| - 1].free > 0 then 0 else 1
      {
        if blocks != [] {
          var last := blocks[|blocks| - 1];
          var n := if last.free < |rest| then last.free else |rest|;
          if n > 0 {
            FillLast(blocks, n, old(Bytes(blocks)), put, rest);
            blocks := blocks[|blocks| - 1 := Block(last.buf + rest[..n], last.free - n)];
            put := put + rest[..n];
            rest := rest[n..];
          }
        }
        if rest != [] {
          AddBlock(blocks);
          blocks := blocks + [Block([], BLOCK_SIZE)];
        }
      }
    }

    /**
     aofChildWriteDiffData: one run of the handler. results are what the calls of
     write return, one after the other; a write takes no more than it is offered,
     and fails once they are used up.
     */
    method SendDiff(stop: bool, results: seq<int>) returns (sent: seq<Byte>)
      requires Valid()
      modifies this
      ensures Valid() && sent + Bytes(blocks) == old(Bytes(blocks)) && (stop ==> sent == [])
    {
      hide Bytes, BlocksOk;
      sent := [];
      var calls := 0;
      while true
        invariant Valid() && 0 <= calls <= |results|
        invariant sent + Bytes(blocks) == old(Bytes(blocks)) && (stop ==> sent == [])
        decreases |results| - calls, |blocks|
      {
        if stop || blocks == [] { return; }
        if |blocks[0].buf| > 0 {
          if calls == |results| || results[calls] <= 0 { return; }
          var n := if results[calls] < |blocks[0].buf| then results[calls] else |blocks[0].buf|;
          calls := calls + 1;
          DrainFirst(blocks, n, sent);
          sent, blocks := sent + blocks[0].buf[..n], Drained(blocks, n);
        }
        if |blocks[0].buf| == 0 {
          DropEmpty(blocks);
          blocks := blocks[1..];
        }
      }
    }

    /** aofRewriteBufferWrite: writes every block, or stops at the first write that is not complete. */
    method WriteAll(results: seq<int>) returns (ok: bool, written: seq<Byte>)
      requires Valid()
      ensures ok ==> written == Bytes(blocks)
      ensures written <= Bytes(blocks)
    {
      hide Bytes;
      written := [];
      var i, calls := 0, 0;
      assert blocks[0..] == blocks && [] + Bytes(blocks) == Bytes(blocks);
      while i < |blocks|
        invariant 0 <= i <= |blocks| && 0 <= calls && written + Bytes(blocks[i..]) == Bytes(blocks)
      {
        var b := blocks[i];
        WriteSome(blocks, i, |b.buf|, written, Bytes(blocks));
        if |b.buf| > 0 {
          if calls >= |results| || results[calls] < |b.buf| {
            var n := if calls < |results| && results[calls] > 0 then results[calls] else 0;
            WriteSome(blocks, i, n, written, Bytes(blocks));
            return false, written + b.buf[..n];
          }
          calls := calls + 1;
          written := written + b.buf;
        } else {
          assert written + b.buf == written;
        }
        i := i + 1;
      }
      NoBytes(blocks[i..]);
      assert written + [] == written;
      return true, written;
    }
  }
}
