/** The monotonic counter of internal/u2f/counter.go kept in one eMMC block. */
module UsageCounter {
  import opened ByteStrings

  const COUNTER_OFFSET := 508
  const WRAP := 0x1_0000_0000

  function Stored(block: Bytes): nat
    requires |block| >= 512
  {
    LittleEndian(block[COUNTER_OFFSET..COUNTER_OFFSET + 4])
  }

  function WithCounter(block: Bytes, n: nat): (b: Bytes)
    requires |block| >= 512
    ensures |b| == |block|
  {
    block[..COUNTER_OFFSET] + FourBytes(n) + block[COUNTER_OFFSET + 4..]
  }

  /** Operations with the outcome of each block transfer; a failed transfer leaves the block unchanged. */
  datatype Op = Read(readOk: bool) | Increment(readOk: bool, writeOk: bool) | Reboot

  datatype Answer = Answer(count: nat, ok: bool)

  predicate Succeeds(op: Op)
  {
    op.Increment? && op.readOk && op.writeOk
  }

  function Next(block: Bytes, op: Op): (b: Bytes)
    requires |block| >= 512
    ensures |b| == |block|
  {
    if Succeeds(op) then WithCounter(block, (Stored(block) + 1) % WRAP) else block
  }

  function Reply(block: Bytes, op: Op): Answer
    requires |block| >= 512
  {
    match op
    case Read(ok) => if ok then Answer(Stored(block), true) else Answer(0, false)
    case Increment(r, w) => if r then Answer((Stored(block) + 1) % WRAP, w) else Answer(0, false)
    case Reboot => Answer(0, true)
  }

  function After(block: Bytes, ops: seq<Op>): (b: Bytes)
    requires |block| >= 512
    ensures |b| == |block|
  {
    if ops == [] then block else Next(After(block, ops[..|ops| - 1]), ops[|ops| - 1])
  }

  function Increments(ops: seq<Op>): nat
  {
    if ops == [] then 0 else Increments(ops[..|ops| - 1]) + if Succeeds(ops[|ops| - 1]) then 1 else 0
  }

  lemma WithCounterFacts(block: Bytes, n: nat)
    requires |block| >= 512
    ensures Stored(WithCounter(block, n)) == n % WRAP
    ensures SameElsewhere(block, WithCounter(block, n))
  {
    assert WithCounter(block, n)[COUNTER_OFFSET..COUNTER_OFFSET + 4] == FourBytes(n);
    FourBytesValue(n);
  }

  ghost predicate SameElsewhere(a: Bytes, b: Bytes)
    requires |a| == |b|
  {
    forall i :: 0 <= i < |a| && !(COUNTER_OFFSET <= i < COUNTER_OFFSET + 4) ==> b[i] == a[i]
  }

  lemma WrapSuccessor(n: nat, m: nat)
    requires m == n % WRAP
    ensures (m + 1) % WRAP == (n + 1) % WRAP
    ensures (m + 1) % WRAP % WRAP == (n + 1) % WRAP
  {
    assert n == WRAP * (n / WRAP) + m;
  }

  lemma WrapSmall(n: nat)
    requires n < WRAP
    ensures n % WRAP == n
  {
  }

  /** After any history the block holds the start plus the successful increments, and nothing else moved. */
  lemma {:induction false} CounterAfter(block: Bytes, ops: seq<Op>)
    requires |block| >= 512
    ensures Stored(After(block, ops)) == (Stored(block) + Increments(ops)) % WRAP
    ensures SameElsewhere(block, After(block, ops))
  {
    if ops == [] {
      StoredBound(block);
      WrapSmall(Stored(block));
    } else {
      var n := |ops| - 1;
      CounterAfter(block, ops[..n]);
      var b := After(block, ops[..n]);
      if Succeeds(ops[n]) {
        WithCounterFacts(b, (Stored(b) + 1) % WRAP);
        WrapSuccessor(Stored(block) + Increments(ops[..n]), Stored(b));
      }
    }
  }

  lemma StoredBound(block: Bytes)
    requires |block| >= 512
    ensures Stored(block) < WRAP
  {
  }

  /** The k-th successful increment answers start + k, until the counter wraps around. */
  lemma IncrementAnswers(block: Bytes, ops: seq<Op>)
    requires |block| >= 512
    ensures Reply(After(block, ops), Increment(true, true)) == Answer((Stored(block) + Increments(ops) + 1) % WRAP, true)
  {
    CounterAfter(block, ops);
    WrapSuccessor(Stored(block) + Increments(ops), Stored(After(block, ops)));
  }

  lemma {:induction false} AfterAppend(block: Bytes, a: seq<Op>, b: seq<Op>)
    requires |block| >= 512
    ensures After(block, a + b) == After(After(block, a), b)
  {
    if b == [] {
      assert a + b == a;
    } else {
      AfterAppend(block, a, b[..|b| - 1]);
      assert (a + b)[..|a + b| - 1] == a + b[..|b| - 1];
    }
  }

  /** A successful increment answers what it stores. */
  lemma IncrementStores(block: Bytes)
    requires |block| >= 512
    ensures Reply(block, Increment(true, true)) == Answer(Stored(Next(block, Increment(true, true))), true)
  {
    WithCounterFacts(block, (Stored(block) + 1) % WRAP);
  }

  lemma QuietKeepsStored(block: Bytes, more: seq<Op>)
    requires |block| >= 512 && Increments(more) == 0
    ensures Stored(After(block, more)) == Stored(block)
  {
    CounterAfter(block, more);
    StoredBound(block);
    WrapSmall(Stored(block));
  }

  /** A read after any history answers the last stored value: what the last successful increment answered. */
  lemma ReadAnswers(block: Bytes, ops: seq<Op>, more: seq<Op>)
    requires |block| >= 512 && Increments(more) == 0
    ensures Reply(After(block, ops + [Increment(true, true)] + more), Read(true))
            == Reply(After(block, ops), Increment(true, true))
  {
    var mid := ops + [Increment(true, true)];
    assert mid[..|mid| - 1] == ops;
    IncrementStores(After(block, ops));
    AfterAppend(block, mid, more);
    QuietKeepsStored(After(block, mid), more);
  }

  lemma OtherBytesStay(a: Bytes, b: Bytes)
    requires |a| == |b| >= 512 && SameElsewhere(a, b)
    ensures b[..508] == a[..508] && b[512..] == a[512..]
  {
  }

  lemma CounterIsAt508(block: Bytes)
    requires |block| >= 512
    ensures Stored(block) == LittleEndian(block[508..512])
  {
  }

  /** In the bytes of the block: the counter is 508 to 511, least significant first, and all others stay. */
  lemma CounterBytes(block: Bytes, ops: seq<Op>)
    requires |block| >= 512
    ensures var b := After(block, ops);
            && LittleEndian(b[508..512]) == (LittleEndian(block[508..512]) + Increments(ops)) % 0x1_0000_0000
            && b[..508] == block[..508] && b[512..] == block[512..]
  {
    CounterAfter(block, ops);
    CounterIsAt508(block);
    CounterIsAt508(After(block, ops));
    OtherBytesStay(block, After(block, ops));
  }

  /** What an operation answers, in those bytes, and whether it succeeded. */
  lemma AnswersInBytes(block: Bytes, readOk: bool, writeOk: bool)
    requires |block| >= 512
    ensures var n := LittleEndian(block[508..512]);
            && Reply(block, Read(readOk)) == (if readOk then Answer(n, true) else Answer(0, false))
            && Reply(block, Increment(readOk, writeOk))
               == (if readOk then Answer((n + 1) % 0x1_0000_0000, writeOk) else Answer(0, false))
  {
  }

  /** The storage: one block that is read and written as a whole. */
  class Emmc {
    const block: array<byte>

    constructor (content: Bytes)
      ensures fresh(block) && block[..] == content
    {
      block := new byte[|content|](i requires 0 <= i < |content| => content[i]);
    }

    method ReadBlock(buf: array<byte>, ok: bool)
      requires buf != block && buf.Length == block.Length
      modifies buf
      ensures ok ==> buf[..] == block[..]
    {
      if ok {
        forall i | 0 <= i < buf.Length {
          buf[i] := block[i];
        }
      }
    }

    method WriteBlock(buf: array<byte>, ok: bool)
      requires buf != block && buf.Length == block.Length
      modifies block
      ensures block[..] == if ok then buf[..] else old(block[..])
    {
      if ok {
        forall i | 0 <= i < buf.Length {
          block[i] := buf[i];
        }
      }
    }

    /** `counterCmd` for the eMMC kind: read, edit the buffer in place, write back. */
    method CounterCmd(increment: bool, readOk: bool, writeOk: bool) returns (answer: Answer)
      requires block.Length >= 512
      modifies block
      ensures var op := if increment then Increment(readOk, writeOk) else Read(readOk);
              answer == Reply(old(block[..]), op) && block[..] == Next(old(block[..]), op)
    {
      var buf := new byte[block.Length](_ => 0);
      ReadBlock(buf, readOk);
      if !readOk {
        return Answer(0, false);
      }
      ghost var before := block[..];
      assert buf[COUNTER_OFFSET..COUNTER_OFFSET + 4] == before[COUNTER_OFFSET..COUNTER_OFFSET + 4];
      var count := LittleEndian(buf[COUNTER_OFFSET..COUNTER_OFFSET + 4]);
      if !increment {
        return Answer(count, true);
      }
      count := (count + 1) % WRAP;
      var bytes := FourBytes(count);
      buf[COUNTER_OFFSET], buf[COUNTER_OFFSET + 1], buf[COUNTER_OFFSET + 2], buf[COUNTER_OFFSET + 3] :=
        bytes[0], bytes[1], bytes[2], bytes[3];
      assert buf[..] == WithCounter(before, count);
      WriteBlock(buf, writeOk);
      return Answer(count, writeOk);
    }

    /** Any history of operations on the storage. */
    method Perform(ops: seq<Op>)
      requires block.Length >= 512
      modifies block
      ensures block[..] == After(old(block[..]), ops)
    {
      for n := 0 to |ops|
        invariant block[..] == After(old(block[..]), ops[..n])
      {
        assert ops[..n + 1][..n] == ops[..n];
        match ops[n] {
          case Read(ok) => var _ := CounterCmd(false, ok, true);
          case Increment(r, w) => var _ := CounterCmd(true, r, w);
          case Reboot =>
        }
      }
      assert ops[..|ops|] == ops;
    }
  }
}