// Numbers of variable length: every string of bytes that ends one is the form of
// exactly one number.
module VarIntForms {
  import opened Wrappers
  import opened Basics
  import opened Coins
  import opened VarInt

  /** All bytes but the last carry the continuation bit. */
  predicate EndsNumber(s: seq<Byte>)
  {
    s != [] && s[|s| - 1] < 0x80 && forall i :: 0 <= i < |s| - 1 ==> s[i] >= 0x80
  }

  predicate Continues(s: seq<Byte>)
  {
    s != [] && forall i :: 0 <= i < |s| ==> s[i] >= 0x80
  }

  /** The number that bytes stand for: seven bits each, and one more for every byte before the last. */
  function Meant(s: seq<Byte>): nat
  {
    if s == [] then 0 else (if |s| == 1 then 0 else 128 * (Meant(s[..|s| - 1]) + 1)) + s[|s| - 1] % 128
  }

  lemma {:induction false} LeadingMeans(n: nat)
    ensures Continues(Leading(n)) && Meant(Leading(n)) == n
  {
    if n > 0x7f {
      var front, last := Leading(n / 0x80 - 1), n % 0x80 + 0x80;
      LeadingMeans(n / 0x80 - 1);
      assert (front + [last])[..|front|] == front;
    }
  }

  // The form of a number stands for it.
  lemma WrittenMeans(n: nat)
    ensures EndsNumber(Written(n)) && Meant(Written(n)) == n
  {
    if n > 0x7f {
      var front, last := Leading(n / 0x80 - 1), n % 0x80;
      LeadingMeans(n / 0x80 - 1);
      assert (front + [last])[..|front|] == front;
    }
  }

  lemma FormMore(m: nat, b: nat)
    requires b < 128
    ensures Written(128 * (m + 1) + b) == Leading(m) + [b] && Leading(128 * (m + 1) + b) == Leading(m) + [b + 128]
  {
    var n := 128 * (m + 1) + b;
    assert n / 128 == m + 1 && n % 128 == b;
  }

  lemma MeantMore(front: seq<Byte>, b: Byte)
    requires front != []
    ensures Meant(front + [b]) == 128 * (Meant(front) + 1) + b % 128
  {
    assert (front + [b])[..|front|] == front;
  }

  lemma {:induction false} ContinuesIsLeading(s: seq<Byte>)
    requires Continues(s)
    ensures Leading(Meant(s)) == s
  {
    var k := |s| - 1;
    if k > 0 {
      ContinuesIsLeading(s[..k]);
      assert s == s[..k] + [s[k]];
      MeantMore(s[..k], s[k]);
      FormMore(Meant(s[..k]), s[k] % 128);
      hide Meant, Leading;
    }
  }

  // Main result on forms: there is no other form for any number.
  lemma EveryFormIsWritten(s: seq<Byte>)
    requires EndsNumber(s)
    ensures Written(Meant(s)) == s
  {
    var k := |s| - 1;
    if k > 0 {
      ContinuesIsLeading(s[..k]);
      assert s == s[..k] + [s[k]];
      MeantMore(s[..k], s[k]);
      FormMore(Meant(s[..k]), s[k]);
      hide Meant, Leading, Written;
    }
  }

  lemma LeadingSize(n: nat)
    ensures |Leading(n)| >= 1 && (|Leading(n)| == 1 <==> n <= 127) && (|Leading(n)| == 2 <==> 128 <= n <= 16_511)
  {
    if n > 0x7f {
      var m := n / 0x80 - 1;
      assert |Leading(m)| >= 1;
      assert |Leading(m)| == 1 <==> m <= 127;
    }
  }

  // One byte up to 127, two up to 16511, three up to 2113663.
  lemma SizeOfWritten(n: nat)
    ensures |Written(n)| == 1 <==> n <= 127
    ensures |Written(n)| == 2 <==> 128 <= n <= 16_511
    ensures |Written(n)| == 3 <==> 16_512 <= n <= 2_113_663
  {
    if n > 0x7f {
      LeadingSize(n / 0x80 - 1);
    }
  }
}
