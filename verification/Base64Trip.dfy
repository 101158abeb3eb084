/** Reading base64 back (section 4 of RFC 4648): what file.read puts into its answer is the file. */
module Base64Trip {
  import opened Bytes
  import opened Wrappers
  import opened FrameSize

  /** The position of a letter in the alphabet `A-Z a-z 0-9 + /`. */
  function Sextet(b: Byte): (v: Option<nat>)
    ensures v.Some? ==> v.value < 64
  {
    if 'A' as int <= b as int <= 'Z' as int then Some(b as nat - 'A' as nat)
    else if 'a' as int <= b as int <= 'z' as int then Some(b as nat - 'a' as nat + 26)
    else if '0' as int <= b as int <= '9' as int then Some(b as nat - '0' as nat + 52)
    else if b as int == '+' as int then Some(62)
    else if b as int == '/' as int then Some(63)
    else None
  }

  predicate IsPad(b: Byte) {
    b as int == '=' as int
  }

  /** Four letters, padded with `=` at the end, as one to three bytes. */
  function Ungroup(g: seq<Byte>): Option<seq<Byte>>
    requires |g| == 4
  {
    var a, b, c, d := Sextet(g[0]), Sextet(g[1]), Sextet(g[2]), Sextet(g[3]);
    if a.None? || b.None? then None
    else
      var first := (4 * a.value + b.value / 16) as Byte;
      if IsPad(g[2]) && IsPad(g[3]) then (if b.value % 16 == 0 then Some([first]) else None)
      else if c.None? then None
      else
        var second := (b.value % 16 * 16 + c.value / 4) as Byte;
        if IsPad(g[3]) then (if c.value % 4 == 0 then Some([first, second]) else None)
        else if d.None? then None
        else Some([first, second, (c.value % 4 * 64 + d.value) as Byte])
  }

  function Unbase64(t: seq<Byte>): Option<seq<Byte>>
    decreases |t|
  {
    if t == [] then Some([])
    else if |t| < 4 then None
    else
      var first, rest := Ungroup(t[..4]), Unbase64(t[4..]);
      if first.None? || rest.None? || (t[4..] != [] && |first.value| < 3) then None else Some(first.value + rest.value)
  }

  lemma LetterIsRead(v: nat)
    requires v < 64
    ensures Sextet(Letter(v)) == Some(v) && !IsPad(Letter(v))
  {
  }

  lemma PadIsNoLetter()
    ensures IsPad(Pad) && Sextet(Pad).None?
  {
  }

  lemma ThreeAreRead(s: seq<Byte>)
    requires |s| == 3
    ensures Ungroup(Group(s)) == Some(s)
  {
    hide Letter, Sextet, IsPad;
    var a, b, c := s[0] as nat, s[1] as nat, s[2] as nat;
    LetterIsRead(a / 4);
    LetterIsRead(a % 4 * 16 + b / 16);
    LetterIsRead(b % 16 * 4 + c / 64);
    LetterIsRead(c % 64);
    Digits(a, b, c);
    assert s == [s[0], s[1], s[2]];
  }

  lemma TwoAreRead(s: seq<Byte>)
    requires |s| == 2
    ensures Ungroup(Group(s)) == Some(s)
  {
    hide Letter, Sextet, IsPad;
    PadIsNoLetter();
    var a, b := s[0] as nat, s[1] as nat;
    LetterIsRead(a / 4);
    LetterIsRead(a % 4 * 16 + b / 16);
    LetterIsRead(b % 16 * 4);
    Digits(a, b, 0);
    assert s == [s[0], s[1]];
  }

  lemma OneIsRead(s: seq<Byte>)
    requires |s| == 1
    ensures Ungroup(Group(s)) == Some(s)
  {
    hide Letter, Sextet, IsPad;
    PadIsNoLetter();
    var a := s[0] as nat;
    LetterIsRead(a / 4);
    LetterIsRead(a % 4 * 16);
    Digits(a, 0, 0);
    assert s == [s[0]];
  }

  /** A group gives back the bytes it was made of. */
  lemma GroupIsRead(s: seq<Byte>)
    requires 1 <= |s| <= 3
    ensures Ungroup(Group(s)) == Some(s)
  {
    if |s| == 1 {
      OneIsRead(s);
    } else if |s| == 2 {
      TwoAreRead(s);
    } else {
      ThreeAreRead(s);
    }
  }

  lemma Digits(a: nat, b: nat, c: nat)
    requires a < 256 && b < 256 && c < 256
    ensures 4 * (a / 4) + (a % 4 * 16 + b / 16) / 16 == a
    ensures (a % 4 * 16 + b / 16) % 16 * 16 + (b % 16 * 4 + c / 64) / 4 == b
    ensures (b % 16 * 4 + c / 64) % 4 * 64 + c % 64 == c
    ensures b == 0 ==> (a % 4 * 16 + b / 16) % 16 == 0
    ensures c == 0 ==> (b % 16 * 4 + c / 64) % 4 == 0
  {
  }

  /** Only the first three bytes make a group. */
  lemma GroupIsLocal(s: seq<Byte>)
    requires |s| > 3
    ensures Group(s) == Group(s[..3])
  {
  }

  /** Decoding gives back what was encoded. */
  lemma {:induction false} Base64ReadsBack(s: seq<Byte>)
    ensures Unbase64(Base64(s)) == Some(s)
    decreases |s|
  {
    hide Group, Ungroup;
    if s == [] {
    } else if |s| <= 3 {
      GroupIsRead(s);
      LastGroup(s);
    } else {
      Base64ReadsBack(s[3..]);
      GroupIsLocal(s);
      GroupIsRead(s[..3]);
      var t := Base64(s);
      assert t == Group(s) + Base64(s[3..]);
      assert t[..4] == Group(s) && t[4..] == Base64(s[3..]);
      assert s == s[..3] + s[3..];
    }
  }

  lemma LastGroup(s: seq<Byte>)
    requires 1 <= |s| <= 3 && Ungroup(Group(s)) == Some(s)
    ensures Unbase64(Base64(s)) == Some(s)
  {
    hide Group, Ungroup;
    var t := Base64(s);
    assert Base64([]) == [];
    assert t == Group(s) + [] && t[..4] == Group(s) && t[4..] == [];
    assert Unbase64([]) == Some([]);
    assert s + [] == s;
  }
}
