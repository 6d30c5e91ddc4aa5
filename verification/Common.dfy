/** Vocabulary shared by every component: bytes, byte strings and failure results. */
module Common {
  /** `uint8_t`. */
  type byte = n: nat | n < 256

  /** A byte buffer, and also `std::string`, which the wire code treats as bytes. */
  type Bytes = seq<byte>

  const TWO_32: nat := 0x1_0000_0000
  const TWO_64: nat := 0x1_0000_0000_0000_0000

  datatype Option<+T> = None | Some(value: T) {
    predicate IsFailure() { None? }

    function PropagateFailure<U>(): Option<U>
      requires None?
    { None }

    function Extract(): T
      requires Some?
    { value }
  }

  /** The result of a read at a position: the value and the next position, or an exception. */
  datatype Read<+T> = Throw | Got(value: T, next: nat) {
    predicate IsFailure() { Throw? }

    function PropagateFailure<U>(): Read<U>
      requires Throw?
    { Throw }

    function Extract(): (T, nat)
      requires Got?
    { (value, next) }
  }

  /** `part` stands in `whole` at `pos`; what comes before and after is arbitrary. */
  predicate At(whole: Bytes, pos: nat, part: Bytes) {
    pos + |part| <= |whole| && whole[pos..pos + |part|] == part
  }

  lemma AtIndex(whole: Bytes, pos: nat, part: Bytes)
    requires At(whole, pos, part)
    ensures forall k :: 0 <= k < |part| ==> whole[pos + k] == part[k]
  {
    forall k | 0 <= k < |part|
      ensures whole[pos + k] == part[k]
    {
      assert whole[pos..pos + |part|][k] == part[k];
    }
  }

  lemma AtFromIndex(whole: Bytes, pos: nat, part: Bytes)
    requires pos + |part| <= |whole|
    requires forall k :: 0 <= k < |part| ==> whole[pos + k] == part[k]
    ensures At(whole, pos, part)
  {
    assert whole[pos..pos + |part|] == part;
  }

  lemma AtSplit(whole: Bytes, pos: nat, a: Bytes, b: Bytes)
    ensures At(whole, pos, a + b) <==> At(whole, pos, a) && At(whole, pos + |a|, b)
  {
    if At(whole, pos, a + b) {
      assert whole[pos..pos + |a|] == (a + b)[..|a|] == a by {
        assert whole[pos..pos + |a|] == whole[pos..pos + |a + b|][..|a|];
      }
      assert whole[pos + |a|..pos + |a| + |b|] == (a + b)[|a|..] == b by {
        assert whole[pos + |a|..pos + |a| + |b|] == whole[pos..pos + |a + b|][|a|..];
      }
    }
    if At(whole, pos, a) && At(whole, pos + |a|, b) {
      assert whole[pos..pos + |a + b|] == whole[pos..pos + |a|] + whole[pos + |a|..pos + |a| + |b|];
    }
  }

  lemma Assoc<T>(a: seq<T>, b: seq<T>, c: seq<T>)
    ensures (a + b) + c == a + (b + c)
  {}

  lemma TailOfConcat<T>(a: seq<T>, b: seq<T>)
    requires a != []
    ensures (a + b)[0] == a[0] && (a + b)[1..] == a[1..] + b
  {}
}
