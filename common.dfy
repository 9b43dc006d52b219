/** Optional values, standing in for std::optional and Rust's Option. */
module Wrappers {

  datatype Option<+T> = None | Some(value: T)
}

/** Facts about sequences used by several modules. */
module Seqs {

  /** No element occurs twice: a sequence that lists a set in some order. */
  predicate NoDup<T(==)>(s: seq<T>)
  {
    forall i, j | 0 <= i < j < |s| :: s[i] != s[j]
  }

  /** A sequence without repetitions drawn from a set is no longer than the set. */
  lemma {:induction false} NoDupBound<T>(s: seq<T>, elems: set<T>)
    requires NoDup(s) && forall x | x in s :: x in elems
    ensures |s| <= |elems|
    decreases |s|
  {
    if s != [] {
      assert forall x | x in s[1..] :: x in elems - {s[0]} by {
        forall x | x in s[1..]
          ensures x in elems - {s[0]}
        {
          var k :| 0 <= k < |s[1..]| && s[1..][k] == x;
          assert s[k + 1] == x;
        }
      }
      NoDupBound(s[1..], elems - {s[0]});
    }
  }
}

/** Fixed-width machine integers as ranges of `int`; wrap-around is written out where it happens. */
module Ints {

  type u8 = x: int | 0 <= x < 0x100
  type u16 = x: int | 0 <= x < 0x1_0000
  type u32 = x: int | 0 <= x < 0x1_0000_0000
  type u64 = x: int | 0 <= x < 0x1_0000_0000_0000_0000
  type i64 = x: int | -0x8000_0000_0000_0000 <= x < 0x8000_0000_0000_0000

  /** A static_cast from a 64-bit unsigned value to uint32_t: the low 32 bits. */
  function TruncateU32(x: u64): (r: u32)
    ensures x < 0x1_0000_0000 ==> r == x
  {
    x % 0x1_0000_0000
  }
}
