/** Python's str.split(sep) with an explicit separator, and its inverse
    sep.join(parts), on Dafny strings. */
module Strings {

  /** sep occurs in s starting at index i. */
  predicate IsAt(s: string, sep: string, i: nat)
  {
    i + |sep| <= |s| && s[i..i + |sep|] == sep
  }

  /** sep occurs somewhere in s. */
  predicate Contains(s: string, sep: string)
  {
    exists i: nat | i <= |s| :: IsAt(s, sep, i)
  }

  /** Number of occurrences of the character c in s. */
  function Count(s: string, c: char): nat
  {
    if s == [] then 0 else (if s[0] == c then 1 else 0) + Count(s[1..], c)
  }

  /** s.split(sep): cut s at every occurrence of sep, scanning from the left
      and never letting two cuts overlap. */
  function Split(s: string, sep: string): (parts: seq<string>)
    requires |sep| > 0
    ensures |parts| >= 1
    decreases |s|
  {
    if |s| < |sep| then [s]
    else if s[..|sep|] == sep then [""] + Split(s[|sep|..], sep)
    else
      var rest := Split(s[1..], sep);
      [[s[0]] + rest[0]] + rest[1..]
  }

  /** sep.join(parts). */
  function Join(parts: seq<string>, sep: string): string
    requires |parts| >= 1
  {
    if |parts| == 1 then parts[0] else parts[0] + sep + Join(parts[1..], sep)
  }

  /** Joining the pieces of a split with the same separator gives back the
      original string. */
  lemma {:induction false} JoinSplit(s: string, sep: string)
    requires |sep| > 0
    ensures Join(Split(s, sep), sep) == s
    decreases |s|
  {
    if |s| < |sep| {
      assert Split(s, sep) == [s];
    } else if s[..|sep|] == sep {
      var tail := Split(s[|sep|..], sep);
      assert Split(s, sep) == [""] + tail;
      JoinSplit(s[|sep|..], sep);
      JoinEmptyHead(tail, sep);
      assert s == sep + s[|sep|..];
    } else {
      var rest := Split(s[1..], sep);
      assert Split(s, sep) == [[s[0]] + rest[0]] + rest[1..];
      JoinSplit(s[1..], sep);
      JoinConsHead(s[0], rest, sep);
      assert s == [s[0]] + s[1..];
    }
  }

  /** An empty first piece contributes only its separator to the join. */
  lemma JoinEmptyHead(parts: seq<string>, sep: string)
    requires |parts| >= 1
    ensures Join([""] + parts, sep) == sep + Join(parts, sep)
  {
    assert ([""] + parts)[1..] == parts;
  }

  /** Prepending a character to the first piece prepends it to the join. */
  lemma JoinConsHead(c: char, rest: seq<string>, sep: string)
    requires |rest| >= 1
    ensures Join([[c] + rest[0]] + rest[1..], sep) == [c] + Join(rest, sep)
  {
    var parts := [[c] + rest[0]] + rest[1..];
    if |rest| == 1 {
      assert parts == [[c] + rest[0]];
    } else {
      assert parts[1..] == rest[1..];
    }
  }

  /** The first piece of a split is a prefix of the string. */
  lemma SplitHeadIsPrefix(s: string, sep: string)
    requires |sep| > 0
    ensures var head := Split(s, sep)[0]; |head| <= |s| && s[..|head|] == head
  {
    var parts := Split(s, sep);
    JoinSplit(s, sep);
    if |parts| > 1 {
      assert s == parts[0] + (sep + Join(parts[1..], sep));
    }
  }

  /** No piece of a split contains the separator. */
  lemma {:induction false} SplitPiecesAreFree(s: string, sep: string)
    requires |sep| > 0
    ensures forall p :: p in Split(s, sep) ==> !Contains(p, sep)
    decreases |s|
  {
    if |s| < |sep| {
      forall i: nat ensures !IsAt(s, sep, i) { }
    } else if s[..|sep|] == sep {
      SplitPiecesAreFree(s[|sep|..], sep);
      forall i: nat ensures !IsAt("", sep, i) { }
    } else {
      var rest := Split(s[1..], sep);
      SplitPiecesAreFree(s[1..], sep);
      SplitHeadIsPrefix(s[1..], sep);
      var head := [s[0]] + rest[0];
      assert s[..|head|] == head;
      forall i: nat | IsAt(head, sep, i) ensures false {
        if i > 0 {
          assert rest[0] in rest;
          assert rest[0][i - 1..i - 1 + |sep|] == head[i..i + |sep|];
          assert IsAt(rest[0], sep, i - 1);
        }
      }
      assert Split(s, sep) == [head] + rest[1..];
    }
  }

  /** A string free of the separator splits into itself alone. */
  lemma {:induction false} SplitFree(s: string, sep: string)
    requires |sep| > 0
    requires !Contains(s, sep)
    ensures Split(s, sep) == [s]
    decreases |s|
  {
    if |s| >= |sep| {
      assert !IsAt(s, sep, 0);
      forall i: nat | IsAt(s[1..], sep, i) ensures false {
        assert s[1..][i..i + |sep|] == s[i + 1..i + 1 + |sep|];
        assert IsAt(s, sep, i + 1);
      }
      SplitFree(s[1..], sep);
      assert s == [s[0]] + s[1..];
    }
  }

  /** When the first occurrence of sep in p + sep + r is the one after p,
      splitting cuts there first. */
  lemma {:induction false} SplitFirstCut(p: string, sep: string, r: string)
    requires |sep| > 0
    requires forall i: nat :: i < |p| ==> !IsAt(p + sep + r, sep, i)
    ensures Split(p + sep + r, sep) == [p] + Split(r, sep)
    decreases |p|
  {
    var s := p + sep + r;
    if p == [] {
      assert s[..|sep|] == sep;
      assert s[|sep|..] == r;
    } else {
      assert !IsAt(s, sep, 0);
      assert s[1..] == p[1..] + sep + r;
      forall i: nat | i < |p[1..]| ensures !IsAt(p[1..] + sep + r, sep, i) {
        assert !IsAt(s, sep, i + 1);
        assert s[i + 1..i + 1 + |sep|] == s[1..][i..i + |sep|];
      }
      SplitFirstCut(p[1..], sep, r);
      assert [s[0]] + p[1..] == p;
    }
  }

  /** Splitting on a one-character separator gives one more piece than
      there are occurrences of that character. */
  lemma {:induction false} SplitCharCount(s: string, c: char)
    ensures |Split(s, [c])| == Count(s, c) + 1
    decreases |s|
  {
    if s != [] {
      SplitCharCount(s[1..], c);
      assert s[..1] == [s[0]];
      assert s[1..] == s[|[c]|..];
    }
  }
}
