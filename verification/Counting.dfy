/** Counting the labels of the items of a sequence. */
module Counting {
  import opened Wrappers

  function Tally<T>(xs: seq<T>, tag: T -> Option<string>): multiset<string> {
    if xs == [] then multiset{} else One(tag(xs[0])) + Tally(xs[1..], tag)
  }

  function One(id: Option<string>): multiset<string> {
    if id.Some? then multiset{id.value} else multiset{}
  }

  lemma {:induction false} TallyConcat<T>(xs: seq<T>, ys: seq<T>, tag: T -> Option<string>)
    ensures Tally(xs + ys, tag) == Tally(xs, tag) + Tally(ys, tag)
  {
    if xs == [] {
      assert xs + ys == ys;
    } else {
      assert (xs + ys)[0] == xs[0] && (xs + ys)[1..] == xs[1..] + ys;
      TallyConcat(xs[1..], ys, tag);
    }
  }

  lemma {:induction false} TallyOne<T>(x: T, tag: T -> Option<string>)
    ensures Tally([x], tag) == One(tag(x))
  {
    assert Tally([x][1..], tag) == multiset{};
  }

  lemma {:induction false} TallyNone<T>(xs: seq<T>, tag: T -> Option<string>)
    requires forall x :: x in xs ==> tag(x) == None
    ensures Tally(xs, tag) == multiset{}
  {
    if xs != [] {
      TallyNone(xs[1..], tag);
    }
  }

  lemma {:induction false} TallyMember<T>(xs: seq<T>, tag: T -> Option<string>, id: string)
    ensures id in Tally(xs, tag) <==> exists i :: 0 <= i < |xs| && tag(xs[i]) == Some(id)
  {
    if xs != [] {
      TallyMember(xs[1..], tag, id);
      assert forall i :: 0 < i < |xs| ==> xs[i] == xs[1..][i - 1];
      if i :| 0 <= i < |xs| - 1 && tag(xs[1..][i]) == Some(id) {
        assert tag(xs[i + 1]) == Some(id);
      }
    }
  }

  /** An element splits the sequence's tally into the part before it, itself, and the part after it. */
  lemma TallySplit<T>(xs: seq<T>, i: nat, tag: T -> Option<string>)
    requires i < |xs|
    ensures Tally(xs, tag) == Tally(xs[..i], tag) + Tally([xs[i]], tag) + Tally(xs[i + 1..], tag)
  {
    hide Tally;
    assert xs == xs[..i] + ([xs[i]] + xs[i + 1..]);
    TallyConcat(xs[..i], [xs[i]] + xs[i + 1..], tag);
    TallyConcat([xs[i]], xs[i + 1..], tag);
  }

  lemma TallyWithout<T>(xs: seq<T>, i: nat, tag: T -> Option<string>)
    requires i < |xs|
    ensures Tally(xs, tag) == Tally(xs[..i] + xs[i + 1..], tag) + Tally([xs[i]], tag)
  {
    TallySplit(xs, i, tag);
    TallyConcat(xs[..i], xs[i + 1..], tag);
  }

  lemma TallyReplace<T>(xs: seq<T>, i: nat, x: T, tag: T -> Option<string>)
    requires i < |xs|
    ensures Tally(xs[i := x], tag) + One(tag(xs[i])) == Tally(xs, tag) + One(tag(x))
  {
    TallyWithout(xs, i, tag);
    TallyWithout(xs[i := x], i, tag);
    assert xs[i := x][..i] + xs[i := x][i + 1..] == xs[..i] + xs[i + 1..];
    TallyOne(xs[i], tag);
    TallyOne(x, tag);
  }

  lemma {:induction false} TallyPrefix<T>(xs: seq<T>, n: nat, tag: T -> Option<string>)
    requires n <= |xs|
    ensures Tally(xs[..n], tag) <= Tally(xs, tag)
  {
    TallyConcat(xs[..n], xs[n..], tag);
    assert xs == xs[..n] + xs[n..];
  }

  /** Two positions with the same tag count twice. */
  lemma TallyTwice<T>(xs: seq<T>, tag: T -> Option<string>, i: nat, j: nat, id: string)
    requires i < j < |xs| && tag(xs[i]) == tag(xs[j]) == Some(id)
    ensures Tally(xs, tag)[id] >= 2
  {
    TallySplit(xs, i, tag);
    TallyOne(xs[i], tag);
    TallyMember(xs[i + 1..], tag, id);
    assert xs[i + 1..][j - i - 1] == xs[j];
  }
}
