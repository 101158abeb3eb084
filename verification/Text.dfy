/** Cutting text at a separator. */
module Text {
  /** Puts a character in front of the first piece. */
  function Extend(c: char, pieces: seq<string>): (r: seq<string>)
    requires pieces != []
    ensures |r| == |pieces|
  {
    [[c] + pieces[0]] + pieces[1..]
  }

  /** The pieces between separators; there is always one, possibly empty. */
  function Split(s: string, sep: char): (pieces: seq<string>)
    ensures pieces != []
  {
    if s == "" then [""]
    else if s[0] == sep then [""] + Split(s[1..], sep)
    else Extend(s[0], Split(s[1..], sep))
  }

  predicate Without(s: string, sep: char) {
    forall i :: 0 <= i < |s| ==> s[i] != sep
  }

  lemma ExtendJoin(c: char, front: seq<string>, back: seq<string>)
    requires front != []
    ensures Extend(c, front + back) == Extend(c, front) + back
  {
    assert (front + back)[1..] == front[1..] + back;
  }

  lemma SplitFirst(s: string, sep: char)
    requires s != ""
    ensures Split(s, sep) == if s[0] == sep then [""] + Split(s[1..], sep) else Extend(s[0], Split(s[1..], sep))
  {
  }

  /** Joining two texts with a separator joins their pieces. */
  lemma {:induction false} SplitJoin(front: string, back: string, sep: char)
    ensures Split(front + [sep] + back, sep) == Split(front, sep) + Split(back, sep)
  {
    hide Split, Extend;
    var s := front + [sep] + back;
    SplitFirst(s, sep);
    if front == "" {
      assert s[1..] == back;
      SplitOne("", sep);
    } else {
      SplitJoin(front[1..], back, sep);
      assert s[0] == front[0] && s[1..] == front[1..] + [sep] + back;
      SplitFirst(front, sep);
      ExtendJoin(front[0], Split(front[1..], sep), Split(back, sep));
      assert [""] + (Split(front[1..], sep) + Split(back, sep)) == [""] + Split(front[1..], sep) + Split(back, sep);
    }
  }

  lemma {:induction false} SplitOne(piece: string, sep: char)
    requires Without(piece, sep)
    ensures Split(piece, sep) == [piece]
  {
    if piece != "" {
      SplitOne(piece[1..], sep);
      assert [piece[0]] + piece[1..] == piece;
    }
  }
}
