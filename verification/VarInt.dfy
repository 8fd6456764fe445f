// Numbers of variable length: seven bits a byte, and one less is carried on so
// that every number has one form only.
module VarInt {
  import opened Wrappers
  import opened Basics
  import opened Coins

  /** A value that was read, and what is left of the stream. */
  datatype Read<+T> = Read(value: T, rest: seq<Byte>)

  // ----- writing -----

  /** The bytes before the last one, which carry the continuation bit. */
  function Leading(n: nat): seq<Byte>
  {
    if n <= 0x7f then [n + 0x80] else Leading(n / 0x80 - 1) + [n % 0x80 + 0x80]
  }

  /** A negative number counts as small and keeps only its low seven bits. */
  function Written(n: int): seq<Byte>
  {
    if n <= 0x7f then [n % 0x80] else Leading(n / 0x80 - 1) + [n % 0x80]
  }

  /** Seven bits of a number, with the continuation bit on all but the last byte. */
  function SevenBits(n: int, last: bool): Byte
  {
    n % 0x80 + if last then 0 else 0x80
  }

  function Form(n: int, last: bool): seq<Byte>
    requires !last ==> n >= 0
  {
    if last then Written(n) else Leading(n)
  }

  lemma FormStep(n: int, last: bool, tail: seq<Byte>)
    requires !last ==> n >= 0
    ensures n <= 0x7f ==> Form(n, last) + tail == [SevenBits(n, last)] + tail
    ensures n > 0x7f ==> Form(n, last) + tail == Leading(n / 0x80 - 1) + ([SevenBits(n, last)] + tail)
  {
  }

  lemma NothingReversed()
    ensures Reversed<Byte>([]) == []
  {
  }

  method Backwards(tmp: seq<Byte>) returns (out: seq<Byte>)
    ensures out == Reversed(tmp)
  {
    out := [];
    var len := |tmp|;
    assert tmp[..len] == tmp;
    while len > 0
      invariant 0 <= len <= |tmp| && out + Reversed(tmp[..len]) == Reversed(tmp)
    {
      len := len - 1;
      assert tmp[..len + 1] == tmp[..len] + [tmp[len]];
      out := out + [tmp[len]];
    }
  }

  method WriteVarInt(n: int) returns (out: seq<Byte>)
    ensures out == Written(n)
  {
    hide Leading, Written, Reversed;
    var rest := n;
    var tmp: seq<Byte> := [];
    NothingReversed();
    assert Written(n) + [] == Written(n);
    while rest > 0x7f
      invariant tmp != [] ==> rest >= 0
      invariant Written(n) == Form(rest, tmp == []) + Reversed(tmp)
      decreases rest
    {
      var b := SevenBits(rest, tmp == []);
      ReversedMore(tmp, b);
      FormStep(rest, tmp == [], Reversed(tmp));
      tmp := tmp + [b];
      rest := rest / 0x80 - 1;
    }
    var b := SevenBits(rest, tmp == []);
    ReversedMore(tmp, b);
    FormStep(rest, tmp == [], Reversed(tmp));
    tmp := tmp + [b];
    out := Backwards(tmp);
  }

  method GetSizeOfVarInt(n: int) returns (size: nat)
    ensures size == |Written(n)|
  {
    var rest := n;
    size := 0;
    while true
      invariant size > 0 ==> rest >= 0
      invariant |Written(n)| == size + (if size == 0 then |Written(rest)| else |Leading(rest)|)
      decreases if rest <= 0x7f then 0 else rest
    {
      size := size + 1;
      if rest <= 0x7f {
        break;
      }
      rest := rest / 0x80 - 1;
    }
  }

  // ----- reading -----

  function ReadFrom(s: seq<Byte>, n: nat): Option<Read<nat>>
  {
    if s == [] then None
    else if s[0] >= 0x80 then ReadFrom(s[1..], n * 0x80 + s[0] % 0x80 + 1)
    else Some(Read(n * 0x80 + s[0], s[1..]))
  }

  method ReadVarInt(s: seq<Byte>) returns (r: Option<Read<nat>>)
    ensures r == ReadFrom(s, 0)
  {
    var n: nat := 0;
    for i := 0 to |s|
      invariant n >= 0 && ReadFrom(s, 0) == ReadFrom(s[i..], n)
    {
      assert s[i..][0] == s[i] && s[i..][1..] == s[i + 1..];
      var chData: int := s[i];
      n := n * 0x80 + chData % 0x80;
      if chData >= 0x80 {
        n := n + 1;
      } else {
        return Some(Read(n, s[i + 1..]));
      }
    }
    return None;
  }

  // Leading bytes bring the reader to the number they stand for.
  lemma {:induction false} ReadLeading(n: nat, s: seq<Byte>)
    ensures ReadFrom(Leading(n) + s, 0) == ReadFrom(s, n + 1)
  {
    if n <= 0x7f {
      assert ([n + 0x80] + s)[1..] == s;
    } else {
      var b: Byte := n % 0x80 + 0x80;
      ReadLeading(n / 0x80 - 1, [b] + s);
      assert Leading(n) + s == Leading(n / 0x80 - 1) + ([b] + s);
      assert ([b] + s)[1..] == s;
    }
  }

  /** What is left of a number once it is written. */
  function Kept(n: int): nat
  {
    if n >= 0 then n else n % 0x80
  }

  // Reading gives back what was written, except that negative numbers lose all but seven bits.
  lemma ReadWritten(n: int, rest: seq<Byte>)
    ensures ReadFrom(Written(n) + rest, 0) == Some(Read(Kept(n), rest))
  {
    if n <= 0x7f {
      assert ([n % 0x80] + rest)[1..] == rest;
    } else {
      var b: Byte := n % 0x80;
      ReadLeading(n / 0x80 - 1, [b] + rest);
      assert Written(n) + rest == Leading(n / 0x80 - 1) + ([b] + rest);
      assert ([b] + rest)[1..] == rest;
    }
  }
}
