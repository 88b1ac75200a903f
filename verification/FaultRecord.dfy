/**
  The fault record as bytes, the same in retained RAM and in external flash: a 32-bit
  little-endian reason, a register dump and task name, a description field filled by strncpy,
  and backtraces.
 */
module FaultRecord {
  import opened Words
  import opened Nor

  type Word = bv32

  const Magic: Word := 0x1234_abcd

  const Unknown: Word := 1
  const ReasonCount: Word := 5
  const FirstFault: Word := 5
  const LastFault: Word := 8

  const DescAt: nat := 4 + 17 * 4 + 4                                    // after reason, registers and task name
  const DescSize: nat := 32
  const RecordSize: nat := DescAt + DescSize + 10 * 4 + 8 * (4 + 10 * 4 + 4)

  type Record = b: seq<Byte> | |b| == RecordSize witness seq(RecordSize, _ => 0)

  /** A C string: the bytes before its terminating NUL. */
  type Text = t: seq<Byte> | forall i :: 0 <= i < |t| ==> t[i] != 0

  /** The four reasons that are faults: hard fault, assert, watchdog, stack overflow. */
  lemma {:induction false} Faults(reason: Word)
    ensures IsFault(reason) <==> reason == 5 || reason == 6 || reason == 7 || reason == 8
  {
  }

  predicate IsReset(reason: Word) {
    reason < ReasonCount
  }

  predicate IsFault(reason: Word) {
    FirstFault <= reason <= LastFault
  }

  // ----- the reason word -----

  function WordBytes(x: Word): (r: seq<Byte>)
    ensures |r| == 4
  {
    [(x & 0xFF) as Byte, ((x >> 8) & 0xFF) as Byte, ((x >> 16) & 0xFF) as Byte, (x >> 24) as Byte]
  }

  function WordAt(b: seq<Byte>): (r: Word)
    requires |b| >= 4
  {
    (b[0] as Word) | ((b[1] as Word) << 8) | ((b[2] as Word) << 16) | ((b[3] as Word) << 24)
  }

  /** The lowest byte comes first. */
  lemma {:induction false} LowestFirst(x: Word)
    ensures (WordBytes(x)[0] as Word) == x & 0xFF && (WordBytes(x)[3] as Word) == x >> 24
  {
  }

  lemma {:induction false} WordRoundTrip(x: Word)
    ensures WordAt(WordBytes(x)) == x
  {
  }

  function ReasonOf(b: Record): (r: Word) {
    WordAt(b)
  }

  function WithReason(b: Record, x: Word): (r: Record) {
    WordBytes(x) + b[4..]
  }

  // ----- the description field -----

  function DescOf(b: Record): (r: seq<Byte>)
    ensures |r| == DescSize
  {
    b[DescAt..DescAt + DescSize]
  }

  /** What strncpy leaves in the field: the text cut at the field's size, or padded with NULs. */
  function Field(t: Text): (r: seq<Byte>)
    ensures |r| == DescSize
  {
    seq(DescSize, i requires 0 <= i => if i < |t| then t[i] else 0)
  }

  /** The text comes first, and every byte after it is NUL. */
  lemma {:induction false} FieldPadded(t: Text, i: nat)
    requires i < DescSize
    ensures Field(t)[i] == if i < |t| then t[i] else 0
  {
  }

  /** The text in a field: up to its first NUL, or all of it if it has none. */
  function TextIn(f: seq<Byte>): (r: seq<Byte>)
    ensures |r| <= |f| && r == f[..|r|]
  {
    if f == [] || f[0] == 0 then [] else [f[0]] + TextIn(f[1..])
  }

  function WithDesc(b: Record, t: Text): (r: Record) {
    b[..DescAt] + Field(t) + b[DescAt + DescSize..]
  }

  lemma {:induction false} TextInIs(f: seq<Byte>, n: nat)
    requires n <= |f| && (forall i :: 0 <= i < n ==> f[i] != 0) && (n < |f| ==> f[n] == 0)
    ensures TextIn(f) == f[..n]
  {
    if n > 0 {
      TextInIs(f[1..], n - 1);
    }
  }

  /** A stored description reads back as the text, cut at the size of the field. */
  lemma {:induction false} DescriptionReadsBack(b: Record, t: Text)
    ensures TextIn(DescOf(WithDesc(b, t))) == t[..Min(DescSize, |t|)]
  {
    var n := Min(DescSize, |t|);
    assert DescOf(WithDesc(b, t)) == Field(t);
    TextInIs(Field(t), n);
    assert Field(t)[..n] == t[..n];
  }

  /** The fields do not overlap: each store is read back and leaves the other field alone. */
  lemma {:induction false} FieldsApart(b: Record, x: Word, t: Text)
    ensures ReasonOf(WithReason(b, x)) == x && DescOf(WithReason(b, x)) == DescOf(b)
    ensures DescOf(WithDesc(b, t)) == Field(t) && ReasonOf(WithDesc(b, t)) == ReasonOf(b)
    ensures WithReason(b, x)[4..] == b[4..]
    ensures WithDesc(b, t)[..DescAt] == b[..DescAt] && WithDesc(b, t)[DescAt + DescSize..] == b[DescAt + DescSize..]
  {
    WordRoundTrip(x);
    assert WordAt(WithReason(b, x)) == WordAt(WordBytes(x));
    assert DescOf(WithReason(b, x)) == DescOf(b);
    assert DescOf(WithDesc(b, t)) == Field(t);
  }
}
