/** The gate of a self-update (internal/selfupdate/checksum.go): the digest of the archive against the first
    line of the checksum file that names it. The digest itself is a parameter, as lower-case hex. */
module Checksum {
  import opened Text

  predicate IsSpace(c: char) {
    c == ' ' || '\t' <= c <= '\r' || c == '\U{0085}' || c == '\U{00A0}'
  }

  /** The length of the longest prefix without (or, with `space`, made only of) white space. */
  function Span(s: string, space: bool): (n: nat)
    ensures n <= |s|
    ensures forall i :: 0 <= i < n ==> IsSpace(s[i]) == space
    ensures n < |s| ==> IsSpace(s[n]) != space
  {
    if s == "" || IsSpace(s[0]) != space then 0 else 1 + Span(s[1..], space)
  }

  /** The maximal runs of non-space characters. */
  function Fields(s: string): seq<string>
    decreases |s|
  {
    var rest := s[Span(s, true)..];
    if rest == "" then []
    else [rest[..Span(rest, false)]] + Fields(rest[Span(rest, false)..])
  }

  datatype Verdict = Match | Mismatch(want: string) | NoEntry

  predicate IsEntryFor(line: string, assetName: string) {
    |Fields(line)| == 2 && Fields(line)[1] == assetName
  }

  function ScanLines(got: string, lines: seq<string>, assetName: string): Verdict {
    if lines == [] then NoEntry
    else if !IsEntryFor(lines[0], assetName) then ScanLines(got, lines[1..], assetName)
    else if Fields(lines[0])[0] != got then Mismatch(Fields(lines[0])[0])
    else Match
  }

  function Verify(got: string, checksums: string, assetName: string): Verdict {
    ScanLines(got, Split(checksums, '\n'), assetName)
  }

  /** Line `i` is the first entry for the asset. */
  ghost predicate IsFirstEntry(lines: seq<string>, assetName: string, i: int) {
    0 <= i < |lines| && IsEntryFor(lines[i], assetName) && forall j :: 0 <= j < i ==> !IsEntryFor(lines[j], assetName)
  }

  /** The verdict is that of the first entry for the asset, and of nothing else. */
  lemma {:induction false} FirstEntryDecides(got: string, lines: seq<string>, assetName: string, i: int)
    requires IsFirstEntry(lines, assetName, i)
    ensures ScanLines(got, lines, assetName) ==
            if Fields(lines[i])[0] == got then Match else Mismatch(Fields(lines[i])[0])
  {
    if i > 0 {
      assert lines[1..][i - 1] == lines[i];
      assert forall j :: 0 <= j < i - 1 ==> lines[1..][j] == lines[j + 1];
      FirstEntryDecides(got, lines[1..], assetName, i - 1);
    }
  }

  lemma {:induction false} NoEntryMeansNone(got: string, lines: seq<string>, assetName: string)
    ensures ScanLines(got, lines, assetName).NoEntry? <==> forall i :: !IsFirstEntry(lines, assetName, i)
    ensures ScanLines(got, lines, assetName).NoEntry? <==>
            forall i :: 0 <= i < |lines| ==> !IsEntryFor(lines[i], assetName)
  {
    if lines != [] {
      NoEntryMeansNone(got, lines[1..], assetName);
      assert forall i :: 0 <= i < |lines| - 1 ==> lines[1..][i] == lines[i + 1];
      if IsEntryFor(lines[0], assetName) {
        assert IsFirstEntry(lines, assetName, 0);
      } else if i :| IsFirstEntry(lines[1..], assetName, i) {
        assert forall j :: 0 < j < i + 1 ==> lines[j] == lines[1..][j - 1];
        assert IsFirstEntry(lines, assetName, i + 1);
      }
    }
  }

  // ----- what an entry is -----

  predicate IsWord(s: string) {
    s != "" && forall i :: 0 <= i < |s| ==> !IsSpace(s[i])
  }

  predicate AllSpace(s: string) {
    forall i :: 0 <= i < |s| ==> IsSpace(s[i])
  }

  /** A line of two words and nothing else but space around and between them. */
  ghost predicate IsTwoWords(line: string, lead: string, digest: string, gap: string, name: string, trail: string) {
    && line == lead + (digest + (gap + (name + trail)))
    && AllSpace(lead) && AllSpace(gap) && gap != "" && AllSpace(trail) && IsWord(digest) && IsWord(name)
  }

  lemma {:induction false} SpaceHasNoFields(s: string)
    requires AllSpace(s)
    ensures Fields(s) == []
  {
    hide IsSpace;
    assert Span(s, true) == |s|;
    assert s[|s|..] == "";
  }

  /** Cutting the first word off. */
  lemma CutWord(s: string) returns (lead: string, rest: string)
    requires Fields(s) != []
    ensures s == lead + (Fields(s)[0] + rest) && AllSpace(lead) && IsWord(Fields(s)[0])
    ensures (rest == "" || IsSpace(rest[0])) && Fields(s) == [Fields(s)[0]] + Fields(rest)
  {
    FieldsStep(s);
    hide Fields;
    var n := Span(s, true);
    var after := s[n..];
    if after == "" {
      NoWordNoField(s);
    }
    var m := Span(after, false);
    assert after[0] == s[n];
    hide Span, IsSpace;
    lead, rest := s[..n], after[m..];
    assert s == lead + after;
    assert after == after[..m] + rest;
  }

  lemma NoWordNoField(s: string)
    requires s[Span(s, true)..] == ""
    ensures Fields(s) == []
  {
  }

  /** A line is an entry for a name if and only if it is two words, the second of them the name. */
  lemma EntryIs(line: string, assetName: string)
    ensures IsEntryFor(line, assetName) <==>
            exists lead, digest, gap, trail :: IsTwoWords(line, lead, digest, gap, assetName, trail)
  {
    if IsEntryFor(line, assetName) {
      EntryIsTwoWords(line, assetName);
    }
    if lead, digest, gap, trail :| IsTwoWords(line, lead, digest, gap, assetName, trail) {
      TwoWordsAreEntry(line, lead, digest, gap, assetName, trail);
    }
  }

  lemma EntryIsTwoWords(line: string, assetName: string)
    requires IsEntryFor(line, assetName)
    ensures exists lead, digest, gap, trail :: IsTwoWords(line, lead, digest, gap, assetName, trail)
  {
    hide Fields, Span, IsSpace;
    var digest := Fields(line)[0];
    var lead, rest := CutWord(line);
    assert Fields(rest) == [assetName];
    var gap, trail := CutWord(rest);
    assert Fields(trail) == [];
    NoFieldsIsSpace(trail);
    GapIsNotEmpty(rest, gap, assetName + trail, assetName);
    assert IsTwoWords(line, lead, digest, gap, assetName, trail);
  }

  lemma GapIsNotEmpty(rest: string, gap: string, after: string, word: string)
    requires rest == gap + after && rest != "" && IsSpace(rest[0]) && IsWord(word) && word <= after
    ensures gap != ""
  {
    assert after[0] == word[0];
    assert gap == "" ==> gap + after == after;
  }

  lemma NoFieldsIsSpace(s: string)
    requires Fields(s) == []
    ensures AllSpace(s)
  {
    FieldsStep(s);
    hide Fields;
    assert s[Span(s, true)..] == "";
    assert Span(s, true) == |s|;
  }

  lemma TwoWordsAreEntry(line: string, lead: string, digest: string, gap: string, name: string, trail: string)
    requires IsTwoWords(line, lead, digest, gap, name, trail)
    ensures IsEntryFor(line, name) && Fields(line)[0] == digest
  {
    hide Fields, Span, IsSpace;
    var rest := gap + (name + trail);
    assert IsSpace(rest[0]) by {
      assert rest[0] == gap[0];
    }
    WordThenRest(lead, digest, rest);
    WordThenRest(gap, name, trail);
    SpaceHasNoFields(trail);
  }

  // ----- the release tool's own format -----

  datatype Entry = Entry(digest: string, name: string)

  function Line(e: Entry): string {
    e.digest + "  " + e.name
  }

  function Render(entries: seq<Entry>): string {
    if entries == [] then "" else Line(entries[0]) + "\n" + Render(entries[1..])
  }

  lemma WordSpan(w: string, rest: string)
    requires IsWord(w) && (rest == "" || IsSpace(rest[0]))
    ensures Span(w + rest, false) == |w|
  {
    hide Span, IsSpace;
    assert forall i :: 0 <= i < |w| ==> (w + rest)[i] == w[i];
    assert rest != "" ==> (w + rest)[|w|] == rest[0];
  }

  /** White space, a word, and what follows it. */
  lemma WordThenRest(blank: string, w: string, rest: string)
    requires forall i :: 0 <= i < |blank| ==> IsSpace(blank[i])
    requires IsWord(w) && (rest == "" || IsSpace(rest[0]))
    ensures Fields(blank + (w + rest)) == [w] + Fields(rest)
  {
    hide Span, IsSpace, Fields;
    var s := blank + (w + rest);
    BlankSpan(blank, w + rest);
    AfterPrefix(blank, w + rest);
    WordSpan(w, rest);
    AfterPrefix(w, rest);
    FieldsStep(s);
  }

  lemma AfterPrefix(front: string, back: string)
    ensures (front + back)[..|front|] == front && (front + back)[|front|..] == back
  {
  }

  lemma FieldsStep(s: string)
    ensures var rest := s[Span(s, true)..];
            rest != "" ==> Fields(s) == [rest[..Span(rest, false)]] + Fields(rest[Span(rest, false)..])
  {
    hide Span;
  }

  lemma BlankSpan(blank: string, rest: string)
    requires (forall i :: 0 <= i < |blank| ==> IsSpace(blank[i])) && rest != "" && !IsSpace(rest[0])
    ensures Span(blank + rest, true) == |blank|
  {
    hide Span, IsSpace;
    assert forall i :: 0 <= i < |blank| ==> (blank + rest)[i] == blank[i];
    assert (blank + rest)[|blank|] == rest[0];
  }

  lemma NoFields()
    ensures Fields("") == []
  {
  }

  lemma BlanksAreSpace()
    ensures forall i :: 0 <= i < |"  "| ==> IsSpace("  "[i])
  {
  }

  lemma LineFields(e: Entry)
    requires IsWord(e.digest) && IsWord(e.name)
    ensures Fields(Line(e)) == [e.digest, e.name]
  {
    hide Fields, Span, IsWord, IsSpace;
    NoFields();
    BlanksAreSpace();
    WordThenRest("", e.digest, "  " + e.name);
    WordThenRest("  ", e.name, "");
    assert "" + (e.digest + ("  " + e.name)) == Line(e);
    assert "  " + (e.name + "") == "  " + e.name;
  }

  /** The entry that decides for an asset. */
  function Lookup(entries: seq<Entry>, assetName: string): seq<Entry> {
    if entries == [] then [] else if entries[0].name == assetName then [entries[0]] else Lookup(entries[1..], assetName)
  }

  /** On a file the release tool writes, verification accepts exactly the digest listed first for the asset and
      reports a missing entry exactly when there is none. */
  lemma {:induction false} VerifyReadsRender(got: string, entries: seq<Entry>, assetName: string)
    requires forall e :: e in entries ==> IsWord(e.digest) && IsWord(e.name)
    ensures Verify(got, Render(entries), assetName) ==
            var found := Lookup(entries, assetName);
            if found == [] then NoEntry else if found[0].digest == got then Match else Mismatch(found[0].digest)
  {
    if entries == [] {
      NoFields();
      assert Split("", '\n') == [""] + [];
      ScanFirst(got, "", [], assetName);
    } else {
      LineFields(entries[0]);
      SplitFirstLine(entries[0], Render(entries[1..]));
      VerifyReadsRender(got, entries[1..], assetName);
      ScanFirst(got, Line(entries[0]), Split(Render(entries[1..]), '\n'), assetName);
      hide Fields, Split, ScanLines, Line, IsWord;
    }
  }

  lemma SplitFirstLine(e: Entry, rest: string)
    requires IsWord(e.digest) && IsWord(e.name)
    ensures Split(Line(e) + "\n" + rest, '\n') == [Line(e)] + Split(rest, '\n')
  {
    SplitJoin(Line(e), rest, '\n');
    SplitOne(Line(e), '\n');
    hide Split, Line;
  }

  lemma ScanFirst(got: string, line: string, lines: seq<string>, assetName: string)
    ensures ScanLines(got, [line] + lines, assetName) ==
            if !IsEntryFor(line, assetName) then ScanLines(got, lines, assetName)
            else if Fields(line)[0] != got then Mismatch(Fields(line)[0]) else Match
  {
    assert ([line] + lines)[1..] == lines;
  }
}
