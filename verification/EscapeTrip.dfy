/** What a string becomes on its way through JSON: the reader that undoes the encoder's escapes (section 7 of
    RFC 8259), and the text it arrives at. Only bytes that are not valid UTF-8 change. */
module EscapeTrip {
  import opened Bytes
  import opened Wrappers
  import opened FrameSize

  // ----- reading -----

  const Replacement: seq<Byte> := [0xEF, 0xBF, 0xBD]

  function HexValue(b: Byte): (v: Option<nat>)
    ensures v.Some? ==> v.value < 16
  {
    if 48 <= b <= 57 then Some(b as nat - 48)
    else if 97 <= b <= 102 then Some(b as nat - 87)
    else if 65 <= b <= 70 then Some(b as nat - 55)
    else None
  }

  /** The code point four hex digits denote. */
  function CodePoint(s: seq<Byte>): (u: Option<nat>)
    requires |s| >= 4
    ensures u.Some? ==> u.value < 0x10000
  {
    var a, b, c, d := HexValue(s[0]), HexValue(s[1]), HexValue(s[2]), HexValue(s[3]);
    if a.None? || b.None? || c.None? || d.None? then None
    else Some(0x1000 * a.value + 0x100 * b.value + 0x10 * c.value + d.value)
  }

  /** UTF-8 of a code point. */
  function Utf8(u: nat): (s: seq<Byte>)
    requires u < 0x110000
    ensures 1 <= |s| <= 4
  {
    if u < 0x80 then [u as Byte]
    else if u < 0x800 then [(0xC0 + u / 0x40) as Byte, (0x80 + u % 0x40) as Byte]
    else
      var v := u / 0x40;
      if u < 0x10000 then [(0xE0 + v / 0x40) as Byte, (0x80 + v % 0x40) as Byte, (0x80 + u % 0x40) as Byte]
      else
        var w := v / 0x40;
        [(0xF0 + w / 0x40) as Byte, (0x80 + w % 0x40) as Byte, (0x80 + v % 0x40) as Byte, (0x80 + u % 0x40) as Byte]
  }

  /** The byte a short escape stands for. */
  function ShortValue(b: Byte): Option<Byte> {
    if b == 34 || b == 92 || b == 47 then Some(b)
    else if b == 98 then Some(8)
    else if b == 102 then Some(12)
    else if b == 110 then Some(10)
    else if b == 114 then Some(13)
    else if b == 116 then Some(9)
    else None
  }

  /** What the next character of a JSON string stands for, and how many bytes of the text it takes; `None` for an
      escape that is not one, and for a quote or control character that should have been one. */
  function ReadNext(t: seq<Byte>): (r: Option<(seq<Byte>, nat)>)
    requires t != []
    ensures r.Some? ==> 1 <= r.value.1 <= |t|
  {
    if t[0] == 34 || t[0] < 0x20 then None
    else if t[0] != 92 then Some(([t[0]], 1))
    else if |t| < 2 then None
    else if t[1] != 117 then (if ShortValue(t[1]).Some? then Some(([ShortValue(t[1]).value], 2)) else None)
    else if |t| < 6 || CodePoint(t[2..6]).None? then None
    else Some((Utf8(CodePoint(t[2..6]).value), 6))
  }

  /** Reading a whole JSON string, quotes taken off. */
  function Unescape(t: seq<Byte>): Option<seq<Byte>>
    decreases |t|
  {
    if t == [] then Some([])
    else
      var next := ReadNext(t);
      if next.None? then None
      else
        var rest := Unescape(t[next.value.1..]);
        if rest.None? then None else Some(next.value.0 + rest.value)
  }

  // ----- the round trip -----

  /** What arrives of the next character. */
  function ArrivesNext(s: seq<Byte>): seq<Byte>
    requires s != []
  {
    if s[0] >= 0x80 && RuneLength(s) == 0 then Replacement else s[..EscapeNext(s).1]
  }

  /** What arrives of a string: each byte that is not part of valid UTF-8 is replaced. */
  function Arrives(s: seq<Byte>): seq<Byte>
    decreases |s|
  {
    if s == [] then [] else ArrivesNext(s) + Arrives(s[EscapeNext(s).1..])
  }

  predicate IsUtf8(s: seq<Byte>)
    decreases |s|
  {
    s == [] || ((s[0] < 0x80 || RuneLength(s) > 0) && IsUtf8(s[EscapeNext(s).1..]))
  }

  /** Reading one unit in front of more text. */
  lemma ReadUnit(unit: seq<Byte>, t: seq<Byte>)
    requires unit != [] && ReadNext(unit).Some? && ReadNext(unit).value.1 == |unit|
    ensures Unescape(unit + t) ==
            if Unescape(t).Some? then Some(ReadNext(unit).value.0 + Unescape(t).value) else None
  {
    var s := unit + t;
    assert s[0] == unit[0] && s[|unit|..] == t;
    if |unit| >= 2 {
      assert s[1] == unit[1];
    }
    if |unit| >= 6 {
      assert s[2..6] == unit[2..6];
    }
    assert ReadNext(s) == ReadNext(unit);
  }

  /** Bytes above ASCII are read as they are. */
  lemma {:induction false} ReadPlain(unit: seq<Byte>, t: seq<Byte>)
    requires forall b :: b in unit ==> b >= 0x80
    ensures Unescape(unit + t) == if Unescape(t).Some? then Some(unit + Unescape(t).value) else None
    decreases |unit|
  {
    hide Unescape;
    if unit == [] {
      assert unit + t == t;
      if Unescape(t).Some? {
        assert unit + Unescape(t).value == Unescape(t).value;
      }
    } else {
      var first, rest := [unit[0]], unit[1..];
      assert unit[0] in unit && forall b :: b in rest ==> b in unit;
      ReadPlain(rest, t);
      ReadUnit(first, rest + t);
      assert first + (rest + t) == unit + t;
      assert first + rest == unit;
      assert ReadNext(first) == Some((first, 1));
      if Unescape(t).Some? {
        assert first + (rest + Unescape(t).value) == unit + Unescape(t).value;
      }
    }
  }

  lemma HexDigitRead(k: nat)
    requires k < 16
    ensures HexValue(HexDigits[k]) == Some(k)
  {
  }

  /** The encoder's unit for one ASCII character reads as that character. */
  lemma AsciiUnit(b: Byte)
    requires b < 0x80
    ensures var unit := EscapeNext([b]).0;
            unit != [] && ReadNext(unit) == Some(([b], |unit|))
  {
    if !IsPlain(b) && ShortEscape(b).None? {
      HexDigitRead(b as nat / 16);
      HexDigitRead(b as nat % 16);
      var unit := UnicodeEscape(b);
      assert unit[2..6] == [48, 48, HexDigits[b as nat / 16], HexDigits[b as nat % 16]];
      assert CodePoint(unit[2..6]) == Some(b as nat);
    }
  }

  lemma ReplacementUnit()
    ensures ReadNext(ReplacementEscape) == Some((Replacement, 6))
  {
    assert ReplacementEscape[2..6] == [102, 102, 102, 100];
    assert CodePoint([102, 102, 102, 100]) == Some(0xFFFD);
  }

  lemma LineSeparatorUnit(b: Byte)
    requires b == 0xA8 || b == 0xA9
    ensures ReadNext(LineSeparatorEscape(b)) == Some(([0xE2 as Byte, 0x80, b], 6))
  {
    var unit := LineSeparatorEscape(b);
    HexDigitRead(b as nat % 16);
    assert unit[2..6] == [50, 48, 50, HexDigits[b as nat % 16]];
    assert CodePoint(unit[2..6]) == Some(0x2000 + 0x20 + b as nat % 16);
  }

  /** The bytes of a multi-byte character are all above ASCII. */
  lemma RuneBytes(s: seq<Byte>)
    requires s != [] && s[0] >= 0x80
    ensures forall i :: 0 <= i < RuneLength(s) ==> s[i] >= 0x80
  {
  }

  lemma UnitArrives(s: seq<Byte>, t: seq<Byte>)
    requires s != []
    ensures Unescape(EscapeNext(s).0 + t) ==
            if Unescape(t).Some? then Some(ArrivesNext(s) + Unescape(t).value) else None
  {
    hide Unescape;
    var unit := EscapeNext(s).0;
    if s[0] < 0x80 {
      AsciiUnit(s[0]);
      assert s[..1] == [s[0]];
      hide ReadNext;
      ReadUnit(unit, t);
    } else if RuneLength(s) == 0 {
      ReplacementUnit();
      hide ReadNext;
      ReadUnit(unit, t);
    } else if unit == s[..RuneLength(s)] {
      RuneBytes(s);
      ReadPlain(unit, t);
    } else {
      LineSeparatorUnit(s[2]);
      assert s[..3] == [0xE2 as Byte, 0x80, s[2]];
      hide ReadNext;
      ReadUnit(unit, t);
    }
  }

  /** Whatever is encoded can be read, and what is read is the string that was encoded, byte for byte if it is
      valid UTF-8. */
  lemma {:induction false} EscapeReadsBack(s: seq<Byte>)
    ensures Unescape(Escape(s)) == Some(Arrives(s))
    ensures IsUtf8(s) ==> Arrives(s) == s
    decreases |s|
  {
    if s != [] {
      var n := EscapeNext(s).1;
      EscapeReadsBack(s[n..]);
      UnitArrives(s, Escape(s[n..]));
      hide Unescape, EscapeNext, ArrivesNext;
      EscapeStep(s);
      NextIsAtFront(s);
    }
  }

  lemma EscapeStep(s: seq<Byte>)
    requires s != []
    ensures Escape(s) == EscapeNext(s).0 + Escape(s[EscapeNext(s).1..])
  {
    hide EscapeNext;
  }

  lemma NextIsAtFront(s: seq<Byte>)
    requires s != []
    ensures s[0] < 0x80 || RuneLength(s) > 0 ==> ArrivesNext(s) + s[EscapeNext(s).1..] == s
  {
  }

  predicate IsMarkup(b: Byte) {
    b as int == '<' as int || b as int == '>' as int || b as int == '&' as int
  }

  lemma NextHasNoMarkup(s: seq<Byte>)
    requires s != []
    ensures forall b :: b in EscapeNext(s).0 ==> !IsMarkup(b)
  {
    if s[0] >= 0x80 {
      RuneBytes(s);
    } else {
      assert forall i :: 0 <= i < 16 ==> !IsMarkup(HexDigits[i]);
    }
  }

  /** An encoded string is safe inside HTML. */
  lemma {:induction false} EscapeHasNoMarkup(s: seq<Byte>)
    ensures forall b :: b in Escape(s) ==> !IsMarkup(b)
    decreases |s|
  {
    if s != [] {
      NextHasNoMarkup(s);
      EscapeHasNoMarkup(s[EscapeNext(s).1..]);
      EscapeStep(s);
      hide Escape, EscapeNext, IsMarkup;
    }
  }

  // ----- escaping what arrived -----

  /** Only the bytes of the character itself decide how it is encoded. */
  lemma NextIsLocal(s: seq<Byte>, t: seq<Byte>)
    requires s != [] && (s[0] < 0x80 || RuneLength(s) > 0)
    ensures var n := EscapeNext(s).1;
            s[..n] + t != [] && EscapeNext(s[..n] + t) == EscapeNext(s)
  {
    var n := EscapeNext(s).1;
    var r := s[..n] + t;
    assert forall i :: 0 <= i < n ==> r[i] == s[i];
    if s[0] >= 0x80 {
      assert RuneLength(r) == RuneLength(s);
      assert r[..n] == s[..n];
    }
  }

  /** Encoding again what arrived takes no more room than the first time. */
  lemma {:induction false} ArrivesNoLonger(s: seq<Byte>)
    ensures |Escape(Arrives(s))| <= |Escape(s)|
    decreases |s|
  {
    if s != [] {
      var n := EscapeNext(s).1;
      var rest := Arrives(s[n..]);
      ArrivesNoLonger(s[n..]);
      EscapeStep(s);
      if s[0] >= 0x80 && RuneLength(s) == 0 {
        var r := Replacement + rest;
        assert r[0] == 0xEF && r[1] == 0xBF && r[2] == 0xBD;
        assert EscapeNext(r) == (r[..3], 3);
        assert r[3..] == rest;
        EscapeStep(r);
      } else {
        var r := s[..n] + rest;
        NextIsLocal(s, rest);
        EscapeStep(r);
        assert r[n..] == rest;
      }
    }
  }
}
