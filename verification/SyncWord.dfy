// dump978/dump978.c, sync_word_fuzzy_compare: sync words with up to four bit errors.
module SyncWord {
  import opened Gf2
  import opened Words

  const SYNC_BITS := 36
  const MAX_SYNC_ERRORS := 4

  // The number of set bits of a word
  function CountOnes(v: nat): nat {
    if v == 0 then 0 else CountOnes(v / 2) + v % 2
  }

  // The number of positions at which two bit strings differ
  function Distance(s: Bits, t: Bits): nat
    requires |s| == |t|
  {
    if s == [] then 0
    else Distance(s[..|s| - 1], t[..|t| - 1]) + if s[|s| - 1] != t[|t| - 1] then 1 else 0
  }

  // d & (d - 1) clears the lowest set bit of d.
  ghost function Differing(s: Bits, t: Bits): set<nat>
    requires |s| == |t|
  {
    set i: nat | i < |s| && s[i] != t[i]
  }

  // The distance is the number of positions that differ.
  lemma {:induction false} DistanceCounts(s: Bits, t: Bits)
    requires |s| == |t|
    ensures Distance(s, t) == |Differing(s, t)|
  {
    if s == [] {
      assert Differing(s, t) == {};
    } else {
      var n := |s| - 1;
      DistanceCounts(s[..n], t[..n]);
      assert Differing(s, t) == Differing(s[..n], t[..n]) + if s[n] != t[n] then {n} else {};
    }
  }

  lemma {:induction false} ClearLowest(d: nat)
    requires d > 0
    ensures CountOnes(AndWord(d, d - 1)) == CountOnes(d) - 1
  {
    var e := d / 2;
    if d % 2 == 1 {
      assert (d - 1) / 2 == e && (d - 1) % 2 == 0;
      AndSelf(e);
      OnesDoubled(e);
    } else {
      assert (d - 1) / 2 == e - 1 && (d - 1) % 2 == 1;
      ClearLowest(e);
      OnesDoubled(AndWord(e, e - 1));
    }
  }

  lemma {:induction false} AndSelf(e: nat)
    ensures AndWord(e, e) == e
  {
    if e > 0 {
      AndSelf(e / 2);
    }
  }

  lemma OnesDoubled(e: nat)
    ensures CountOnes(2 * e) == CountOnes(e)
  {
  }

  lemma {:induction false} NoOnes(d: nat)
    ensures CountOnes(d) == 0 <==> d == 0
  {
    if d > 0 {
      NoOnes(d / 2);
    }
  }

  lemma {:induction false} OnesAreDifferences(a: nat, b: nat, n: nat)
    requires a < Pow2(n) && b < Pow2(n)
    ensures CountOnes(XorWord(a, b)) == Distance(LowBits(a, n), LowBits(b, n))
  {
    if n > 0 {
      OnesAreDifferences(a / 2, b / 2, n - 1);
      XorHalf(a, b);
      OddSum(a, b);
      OnesHalf(XorWord(a, b));
    }
  }

  lemma OnesHalf(v: nat)
    ensures CountOnes(v) == CountOnes(v / 2) + v % 2
  {
  }

  lemma {:induction false} EqualWords(a: nat)
    ensures CountOnes(XorWord(a, a)) == 0
  {
    XorSelf(a);
  }

  // True exactly when at most four of the 36 bits differ.
  method FuzzyCompare(word: nat, expected: nat) returns (equal: bool)
    requires word < Pow2(SYNC_BITS) && expected < Pow2(SYNC_BITS)
    ensures equal <==> Distance(LowBits(word, SYNC_BITS), LowBits(expected, SYNC_BITS)) <= MAX_SYNC_ERRORS
  {
    hide CountOnes, XorWord, AndWord, LowBits, Distance, Pow2;
    OnesAreDifferences(word, expected, SYNC_BITS);
    if word == expected {
      EqualWords(word);
      return true;
    }
    var diff := XorWord(word, expected);
    DifferentWords(word, expected);
    ClearLowest(diff);
    diff := AndWord(diff, diff - 1);
    NoOnes(diff);
    if diff == 0 {
      return true; // 1 bit error
    }
    ClearLowest(diff);
    diff := AndWord(diff, diff - 1);
    NoOnes(diff);
    if diff == 0 {
      return true; // 2 bit errors
    }
    ClearLowest(diff);
    diff := AndWord(diff, diff - 1);
    NoOnes(diff);
    if diff == 0 {
      return true; // 3 bit errors
    }
    ClearLowest(diff);
    diff := AndWord(diff, diff - 1);
    NoOnes(diff);
    if diff == 0 {
      return true; // 4 bit errors
    }
    return false;
  }

  lemma {:induction false} DifferentWords(a: nat, b: nat)
    requires a != b
    ensures XorWord(a, b) != 0
  {
    hide XorWord;
    XorHalf(a, b);
    OddSum(a, b);
    if a / 2 != b / 2 {
      DifferentWords(a / 2, b / 2);
    } else {
      assert a % 2 != b % 2;
    }
  }
}
