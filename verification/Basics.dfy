/** Vocabulary shared by the components: fixed-width integers, optional values,
    results, and the big-endian word that both the compiled requirement and the
    frame header use. */
module Basics {

  datatype Option<+T> = None | Some(value: T)

  datatype Result<+T, +E> = Ok(value: T) | Err(error: E) {
    predicate IsFailure() {
      Err?
    }

    function PropagateFailure<U>(): Result<U, E>
      requires Err?
    {
      Err(error)
    }

    function Extract(): T
      requires Ok?
    {
      value
    }
  }

  /** A session token. */
  type Token = string

  type byte = x: int | 0 <= x < 0x100
  type u16 = x: int | 0 <= x < 0x1_0000
  type u32 = x: int | 0 <= x < 0x1_0000_0000

  function Min(a: int, b: int): int {
    if a <= b then a else b
  }

  function Max(a: int, b: int): int {
    if a >= b then a else b
  }

  function Power(n: nat): (p: nat)
    ensures p >= 1
  {
    if n == 0 then 1 else 2 * Power(n - 1)
  }

  lemma Distributes(a: nat, b: nat, factor: nat)
    ensures (a + b) * factor == a * factor + b * factor
    ensures factor * (a + b) == factor * a + factor * b
  {
  }

  function BigEndian(w: u32): (b: seq<byte>)
    ensures |b| == 4
  {
    [w / 0x100 / 0x100 / 0x100, w / 0x100 / 0x100 % 0x100, w / 0x100 % 0x100, w % 0x100]
  }

  function Word(b: seq<byte>): u32
    requires |b| == 4
  {
    (((b[0] as int) * 0x100 + b[1]) * 0x100 + b[2]) * 0x100 + b[3]
  }

  lemma WordOfBigEndian(w: u32)
    ensures Word(BigEndian(w)) == w
  {
  }

  lemma BigEndianOfWord(b: seq<byte>)
    requires |b| == 4
    ensures BigEndian(Word(b)) == b
  {
    hide Word, BigEndian;
    var high := (b[0] as int) * 0x100 + b[1];
    var low := high * 0x100 + b[2];
    LastByte(b[0], b[1]);
    LastByte(high, b[2]);
    LastByte(low, b[3]);
    BigEndianOf(b, high, low);
  }

  lemma BigEndianOf(b: seq<byte>, high: nat, low: nat)
    requires |b| == 4
    requires high / 0x100 == b[0] as int && high % 0x100 == b[1] as int && low / 0x100 == high && low % 0x100 == b[2] as int
    requires low == high * 0x100 + b[2] && high == b[0] as int * 0x100 + b[1]
    requires (low * 0x100 + b[3]) / 0x100 == low && (low * 0x100 + b[3]) % 0x100 == b[3] as int
    ensures BigEndian(Word(b)) == b
  {
    assert Word(b) == low * 0x100 + b[3];
  }

  lemma LastByte(rest: nat, last: byte)
    ensures (rest * 0x100 + last as int) / 0x100 == rest
    ensures (rest * 0x100 + last as int) % 0x100 == last
  {
  }

  // The byte order.

  /** The most significant byte comes first. */
  lemma FirstByteWeighsMost(w: u32)
    ensures var b := BigEndian(w);
            w == b[0] as int * 0x100_0000 + b[1] as int * 0x1_0000 + b[2] as int * 0x100 + b[3]
  {
    var a := w / 0x100;
    var c := a / 0x100;
    assert w == a * 0x100 + w % 0x100;
    assert a == c * 0x100 + a % 0x100;
    assert c == c / 0x100 * 0x100 + c % 0x100;
  }

  /** `a` stands before `b` at the first byte in which they differ. */
  predicate Precedes(a: seq<byte>, b: seq<byte>)
    requires |a| == |b|
  {
    a != [] && (a[0] < b[0] || (a[0] == b[0] && Precedes(a[1..], b[1..])))
  }

  lemma PrecedesOfFour(a: seq<byte>, b: seq<byte>)
    requires |a| == |b| == 4
    ensures Precedes(a, b) <==>
            || a[0] < b[0]
            || (a[0] == b[0] && a[1] < b[1])
            || (a[0] == b[0] && a[1] == b[1] && a[2] < b[2])
            || (a[0] == b[0] && a[1] == b[1] && a[2] == b[2] && a[3] < b[3])
  {
    assert a[1..][1..] == a[2..] && a[2..][1..] == a[3..] && a[3..][1..] == [];
    assert b[1..][1..] == b[2..] && b[2..][1..] == b[3..] && b[3..][1..] == [];
    assert Precedes(a[3..], b[3..]) <==> a[3] < b[3];
    assert Precedes(a[2..], b[2..]) <==> a[2] < b[2] || (a[2] == b[2] && Precedes(a[3..], b[3..]));
    assert Precedes(a[1..], b[1..]) <==> a[1] < b[1] || (a[1] == b[1] && Precedes(a[2..], b[2..]));
  }

  /** Numbers are ordered as their bytes are, read from the first on. */
  lemma ByteOrder(a: u32, b: u32)
    ensures a < b <==> Precedes(BigEndian(a), BigEndian(b))
  {
    hide BigEndian;
    PrecedesOfFour(BigEndian(a), BigEndian(b));
    FirstByteWeighsMost(a);
    FirstByteWeighsMost(b);
  }

  lemma SmallNumberComesLast(w: byte)
    ensures BigEndian(w) == [0, 0, 0, w]
  {
  }

  /** The concatenation of a list of pieces, in order. */
  function Flatten<T>(pieces: seq<seq<T>>): seq<T> {
    if pieces == [] then [] else pieces[0] + Flatten(pieces[1..])
  }

  lemma {:induction false} FlattenAppend<T>(a: seq<seq<T>>, b: seq<seq<T>>)
    ensures Flatten(a + b) == Flatten(a) + Flatten(b)
  {
    if a == [] {
      assert a + b == b;
    } else {
      assert (a + b)[1..] == a[1..] + b;
      FlattenAppend(a[1..], b);
    }
  }

  function OneOf<T>(o: Option<T>): seq<T> {
    match o
    case None => []
    case Some(value) => [value]
  }

  /** The values a projection finds in a log, in order. */
  function Picked<E, T>(log: seq<E>, pick: E -> Option<T>): seq<T> {
    if log == [] then [] else OneOf(pick(log[0])) + Picked(log[1..], pick)
  }

  lemma {:induction false} PickedAppend<E, T>(a: seq<E>, b: seq<E>, pick: E -> Option<T>)
    ensures Picked(a + b, pick) == Picked(a, pick) + Picked(b, pick)
  {
    if a == [] {
      assert a + b == b;
    } else {
      assert (a + b)[1..] == a[1..] + b;
      PickedAppend(a[1..], b, pick);
    }
  }

  function Sum(numbers: seq<nat>): nat {
    if numbers == [] then 0 else numbers[0] + Sum(numbers[1..])
  }

  lemma {:induction false} SumAppend(a: seq<nat>, b: seq<nat>)
    ensures Sum(a + b) == Sum(a) + Sum(b)
  {
    if a == [] {
      assert a + b == b;
    } else {
      assert (a + b)[1..] == a[1..] + b;
      SumAppend(a[1..], b);
    }
  }

  /** A queue conserved by one step and by the rest of a run is conserved by the
      whole run: what a step gives out and leaves in the middle is what was ahead
      and what came; the rest of the run does the same from the middle. */
  lemma StepAndRest<T>(
      out: seq<T>, later: seq<T>, left: seq<T>, ahead: seq<T>, came: seq<T>, coming: seq<T>, middle: seq<T>)
    requires out + middle == ahead + came && later + left == middle + coming
    ensures (out + later) + left == ahead + (came + coming)
  {
    assert (out + later) + left == out + (later + left);
    assert out + (middle + coming) == (out + middle) + coming;
    assert (ahead + came) + coming == ahead + (came + coming);
  }
}
