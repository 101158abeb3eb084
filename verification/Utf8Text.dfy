/** The encoder's idea of a character (the length tests of `FrameSize.RuneLength`) against UTF-8 as an encoding of code
    points: the two agree on every byte string. */
module Utf8Text {
  import opened Bytes
  import opened FrameSize
  import opened EscapeTrip

  /** A code point that is no surrogate. */
  predicate IsScalar(u: nat) {
    u < 0xD800 || 0xE000 <= u < 0x110000
  }

  // ----- from code points to bytes -----

  lemma TwoBytes(u: nat, t: seq<Byte>)
    requires 0x80 <= u < 0x800
    ensures RuneLength(Utf8(u) + t) == 2
  {
    var s := Utf8(u) + t;
    assert s[0] as nat == 0xC0 + u / 0x40 && s[1] as nat == 0x80 + u % 0x40;
  }

  lemma ThreeBytes(u: nat, t: seq<Byte>)
    requires 0x800 <= u < 0x10000 && IsScalar(u)
    ensures RuneLength(Utf8(u) + t) == 3
  {
    var s, v := Utf8(u) + t, u / 0x40;
    var a, b, c := v / 0x40, v % 0x40, u % 0x40;
    assert u == 0x40 * v + c && v == 0x40 * a + b;
    assert s[0] as nat == 0xE0 + a && s[1] as nat == 0x80 + b && s[2] as nat == 0x80 + c;
    hide Utf8;
  }

  lemma FourBytes(u: nat, t: seq<Byte>)
    requires 0x10000 <= u < 0x110000
    ensures RuneLength(Utf8(u) + t) == 4
  {
    var s, v := Utf8(u) + t, u / 0x40;
    var w := v / 0x40;
    var a, b, c, d := w / 0x40, w % 0x40, v % 0x40, u % 0x40;
    assert s[0] as nat == 0xF0 + a && s[1] as nat == 0x80 + b && s[2] as nat == 0x80 + c && s[3] as nat == 0x80 + d;
    hide Utf8;
    assert u == 0x40 * v + d && v == 0x40 * w + c && w == 0x40 * a + b;
    assert 0x10 <= w < 0x110;
  }

  /** A character outside ASCII is recognised at its full length, whatever follows. */
  lemma ScalarIsRune(u: nat, t: seq<Byte>)
    requires IsScalar(u) && u >= 0x80
    ensures Utf8(u)[0] >= 0x80 && RuneLength(Utf8(u) + t) == |Utf8(u)|
  {
    if u < 0x800 {
      TwoBytes(u, t);
    } else if u < 0x10000 {
      ThreeBytes(u, t);
    } else {
      FourBytes(u, t);
    }
  }

  // ----- from bytes to code points -----

  /** The number the payload bits of `n` bytes make. */
  function ScalarOf(s: seq<Byte>, n: nat): int
    requires 2 <= n <= 4 && n <= |s|
  {
    if n == 2 then 0x40 * (s[0] as int - 0xC0) + (s[1] as int - 0x80)
    else if n == 3 then 0x1000 * (s[0] as int - 0xE0) + 0x40 * (s[1] as int - 0x80) + (s[2] as int - 0x80)
    else
      0x40000 * (s[0] as int - 0xF0) + 0x1000 * (s[1] as int - 0x80) + 0x40 * (s[2] as int - 0x80) + (s[3] as int - 0x80)
  }

  lemma Digit64(q: nat, r: nat)
    requires r < 0x40
    ensures (0x40 * q + r) / 0x40 == q && (0x40 * q + r) % 0x40 == r
  {
  }

  lemma TwoBack(s: seq<Byte>)
    requires s != [] && RuneLength(s) == 2
    ensures var u := ScalarOf(s, 2); 0x80 <= u < 0x800 && Utf8(u) == s[..2]
  {
    Digit64(s[0] as nat - 0xC0, s[1] as nat - 0x80);
  }

  lemma ThreeBack(s: seq<Byte>)
    requires s != [] && RuneLength(s) == 3
    ensures var u := ScalarOf(s, 3); 0x800 <= u < 0x10000 && IsScalar(u) && Utf8(u) == s[..3]
  {
    var a, b, c := s[0] as nat - 0xE0, s[1] as nat - 0x80, s[2] as nat - 0x80;
    Digit64(a, b);
    Digit64(0x40 * a + b, c);
  }

  lemma FourBack(s: seq<Byte>)
    requires s != [] && RuneLength(s) == 4
    ensures var u := ScalarOf(s, 4); 0x10000 <= u < 0x110000 && Utf8(u) == s[..4]
  {
    var a, b, c, d := s[0] as nat - 0xF0, s[1] as nat - 0x80, s[2] as nat - 0x80, s[3] as nat - 0x80;
    Digit64(a, b);
    Digit64(0x40 * a + b, c);
    Digit64(0x40 * (0x40 * a + b) + c, d);
  }

  /** Whatever is recognised is the encoding of a code point that is no surrogate, and of no other length. */
  lemma RuneIsScalar(s: seq<Byte>)
    requires s != [] && RuneLength(s) > 0
    ensures exists u: nat :: IsScalar(u) && u >= 0x80 && Utf8(u) == s[..RuneLength(s)]
  {
    var n := RuneLength(s);
    if n == 2 {
      TwoBack(s);
    } else if n == 3 {
      ThreeBack(s);
    } else {
      FourBack(s);
    }
    hide RuneLength, Utf8;
    var u: nat := ScalarOf(s, n);
    assert IsScalar(u) && u >= 0x80 && Utf8(u) == s[..n];
  }

  // ----- whole strings -----

  predicate AreScalars(us: seq<nat>) {
    forall i :: 0 <= i < |us| ==> IsScalar(us[i])
  }

  function Encoded(us: seq<nat>): seq<Byte>
    requires AreScalars(us)
  {
    if us == [] then [] else Utf8(us[0]) + Encoded(us[1..])
  }

  lemma {:induction false} EncodedIsUtf8(us: seq<nat>)
    requires AreScalars(us)
    ensures IsUtf8(Encoded(us))
  {
    if us != [] {
      EncodedIsUtf8(us[1..]);
      CharacterThenRest(us[0], Encoded(us[1..]));
      hide Utf8, IsUtf8;
    }
  }

  lemma CharacterThenRest(u: nat, t: seq<Byte>)
    requires IsScalar(u) && IsUtf8(t)
    ensures IsUtf8(Utf8(u) + t)
  {
    var s := Utf8(u) + t;
    if u >= 0x80 {
      ScalarIsRune(u, t);
      assert s[0] == Utf8(u)[0];
    }
    hide RuneLength, Utf8;
    assert EscapeNext(s).1 == |Utf8(u)|;
    assert s[|Utf8(u)|..] == t;
  }

  lemma RestIsUtf8(s: seq<Byte>)
    requires IsUtf8(s) && s != []
    ensures s[0] < 0x80 || RuneLength(s) > 0
    ensures 0 < EscapeNext(s).1 <= |s| && IsUtf8(s[EscapeNext(s).1..])
  {
    hide RuneLength;
  }

  lemma {:induction false} Utf8IsEncoded(s: seq<Byte>) returns (us: seq<nat>)
    requires IsUtf8(s)
    ensures AreScalars(us) && Encoded(us) == s
    decreases |s|
  {
    hide *;
    if s == [] {
      NothingEncoded();
      return [];
    }
    RestIsUtf8(s);
    var n := EscapeNext(s).1;
    var u := FirstCharacter(s);
    var rest := Utf8IsEncoded(s[n..]);
    us := [u] + rest;
    OneMoreCharacter(u, rest);
    assert s[..n] + s[n..] == s;
  }

  lemma NothingEncoded()
    ensures AreScalars([]) && Encoded([]) == []
  {
  }

  lemma OneMoreCharacter(u: nat, rest: seq<nat>)
    requires IsScalar(u) && AreScalars(rest)
    ensures AreScalars([u] + rest) && Encoded([u] + rest) == Utf8(u) + Encoded(rest)
  {
    hide IsScalar, Utf8;
    assert ([u] + rest)[1..] == rest;
  }

  lemma FirstCharacter(s: seq<Byte>) returns (u: nat)
    requires s != [] && (s[0] < 0x80 || RuneLength(s) > 0)
    ensures IsScalar(u) && Utf8(u) == s[..EscapeNext(s).1]
  {
    u := s[0] as nat;
    if s[0] >= 0x80 {
      RuneIsScalar(s);
      u :| IsScalar(u) && u >= 0x80 && Utf8(u) == s[..RuneLength(s)];
      hide RuneLength, Utf8;
    } else {
      assert s[..1] == [s[0]];
    }
  }

  /** A byte string counts as valid exactly if it is the encoding of some code points, none of them a surrogate. */
  lemma IsUtf8Means(s: seq<Byte>)
    ensures IsUtf8(s) <==> exists us: seq<nat> :: AreScalars(us) && Encoded(us) == s
  {
    if IsUtf8(s) {
      var us := Utf8IsEncoded(s);
    }
    if us: seq<nat> :| AreScalars(us) && Encoded(us) == s {
      EncodedIsUtf8(us);
    }
  }
}
