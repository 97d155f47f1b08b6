/** The .NET string operations the routing code relies on, over `seq<char>`, compared character by
    character. */
module DotNetStrings {

  /** Ordinal stand-in for the culture-sensitive `String.StartsWith(string)`: `prefix` is the first
      `|prefix|` characters of `s`. */
  predicate StartsWith(s: string, prefix: string)
    ensures StartsWith(s, prefix) <==>
              |prefix| <= |s| && forall i :: 0 <= i < |prefix| ==> s[i] == prefix[i]
  {
    |prefix| <= |s| && s[..|prefix|] == prefix
  }

  /** Ordinal stand-in for the culture-sensitive `String.EndsWith(string)`: `suffix` is the last
      `|suffix|` characters of `s`. */
  predicate EndsWith(s: string, suffix: string)
    ensures EndsWith(s, suffix) <==>
              |suffix| <= |s| && forall i :: 0 <= i < |suffix| ==> s[|s| - |suffix| + i] == suffix[i]
  {
    |suffix| <= |s| && s[|s| - |suffix|..] == suffix
  }

  /** How many `c` begin `s`. */
  function LeadingCount(s: string, c: char): (k: nat)
    ensures k <= |s|
    ensures forall i :: 0 <= i < k ==> s[i] == c
    ensures k < |s| ==> s[k] != c
  {
    if s != [] && s[0] == c then 1 + LeadingCount(s[1..], c) else 0
  }

  /** How many `c` end `s`. */
  function TrailingCount(s: string, c: char): (k: nat)
    ensures k <= |s|
    ensures forall i :: |s| - k <= i < |s| ==> s[i] == c
    ensures k < |s| ==> s[|s| - k - 1] != c
  {
    if s != [] && s[|s| - 1] == c then 1 + TrailingCount(s[..|s| - 1], c) else 0
  }

  /** `String.TrimStart(c)`: every leading `c` removed, the rest kept. */
  function TrimStart(s: string, c: char): (r: string)
    ensures r != [] ==> r[0] != c
  {
    s[LeadingCount(s, c)..]
  }

  /** `String.TrimEnd(c)`: every trailing `c` removed, the rest kept. */
  function TrimEnd(s: string, c: char): (r: string)
    ensures r != [] ==> r[|r| - 1] != c
  {
    s[..|s| - TrailingCount(s, c)]
  }

  /** `String.Trim(c)`: both ends trimmed; a string with no `c` at either end is left alone. */
  function Trim(s: string, c: char): (r: string)
    ensures r != [] ==> r[0] != c && r[|r| - 1] != c
    ensures (s == [] || (s[0] != c && s[|s| - 1] != c)) ==> r == s
    ensures c !in s ==> c !in r
  {
    var t := TrimStart(s, c);
    assert t != [] ==> t[0] == TrimEnd(t, c)[0] || TrimEnd(t, c) == [];
    TrimEnd(t, c)
  }

  /** A string with no `c` at either end is left alone by trimming its start and then its end. */
  lemma TrimsLeaveTrimmed(s: string, c: char)
    requires s != [] && s[0] != c && s[|s| - 1] != c
    ensures TrimEnd(TrimStart(s, c), c) == s
  {
    assert LeadingCount(s, c) == 0;
    assert TrailingCount(s, c) == 0;
  }

  /** Removing characters at either end keeps a character that `s` never had out of the result. */
  lemma TrimsKeepAbsentChar(s: string, c: char, d: char)
    requires d !in s
    ensures d !in TrimStart(s, c) && d !in TrimEnd(s, c) && d !in Trim(s, c)
  {
    var t := TrimStart(s, c);
    assert forall i :: 0 <= i < |t| ==> t[i] == s[|s| - |t| + i];
    var e := TrimEnd(s, c);
    assert forall i :: 0 <= i < |e| ==> e[i] == s[i];
    var u := TrimEnd(t, c);
    assert forall i :: 0 <= i < |u| ==> u[i] == t[i];
  }

  /** `String.Split(c)`: the pieces between separators, empty pieces included. */
  function Split(s: string, c: char): (r: seq<string>)
    ensures |r| >= 1
    ensures forall i :: 0 <= i < |r| ==> c !in r[i]
  {
    if s == [] then [[]]
    else
      var rest := Split(s[1..], c);
      if s[0] == c then [[]] + rest
      else [[s[0]] + rest[0]] + rest[1..]
  }

  /** `String.Join(c, xs)`: the pieces with one separator between neighbours. */
  function Join(xs: seq<string>, c: char): (r: string)
    ensures c in r <==> |xs| > 1 || exists i :: 0 <= i < |xs| && c in xs[i]
  {
    if xs == [] then []
    else if |xs| == 1 then xs[0]
    else xs[0] + [c] + Join(xs[1..], c)
  }

  /** Joining the pieces of a split gives back the string. */
  lemma {:induction false} JoinSplit(s: string, c: char)
    ensures Join(Split(s, c), c) == s
  {
    if s != [] {
      var rest := Split(s[1..], c);
      JoinSplit(s[1..], c);
      if s[0] == c {
        assert Split(s, c) == [[]] + rest;
        assert ([[]] + rest)[1..] == rest;
        assert s == [c] + s[1..];
      } else {
        var first := [s[0]] + rest[0];
        assert Split(s, c) == [first] + rest[1..];
        if |rest| == 1 {
          assert s == [s[0]] + s[1..];
        } else {
          assert ([first] + rest[1..])[1..] == rest[1..];
          assert Join(rest, c) == rest[0] + [c] + Join(rest[1..], c);
          assert s == [s[0]] + s[1..];
        }
      }
    }
  }

  /** Splitting a string with no separator gives that one piece. */
  lemma {:induction false} SplitWithoutSeparator(a: string, c: char)
    requires c !in a
    ensures Split(a, c) == [a]
  {
    if a != [] {
      SplitWithoutSeparator(a[1..], c);
      assert a == [a[0]] + a[1..];
    }
  }

  /** A piece followed by a separator splits off as the first piece. */
  lemma {:induction false} SplitAfterPiece(a: string, c: char, b: string)
    requires c !in a
    ensures Split(a + [c] + b, c) == [a] + Split(b, c)
  {
    if a == [] {
      assert a + [c] + b == [c] + b;
      assert ([c] + b)[1..] == b;
    } else {
      SplitAfterPiece(a[1..], c, b);
      var s := a + [c] + b;
      assert s[0] == a[0];
      assert s[1..] == a[1..] + [c] + b;
      assert a == [a[0]] + a[1..];
    }
  }

  /** Splitting a join of separator-free pieces gives back the pieces. */
  lemma {:induction false} SplitJoin(xs: seq<string>, c: char)
    requires |xs| >= 1
    requires forall i :: 0 <= i < |xs| ==> c !in xs[i]
    ensures Split(Join(xs, c), c) == xs
  {
    if |xs| == 1 {
      SplitWithoutSeparator(xs[0], c);
    } else {
      SplitJoin(xs[1..], c);
      SplitAfterPiece(xs[0], c, Join(xs[1..], c));
      assert xs == [xs[0]] + xs[1..];
    }
  }

  /** The first piece of a split is a prefix of the string. */
  lemma {:induction false} SplitFirstPiece(s: string, c: char)
    ensures |Split(s, c)[0]| <= |s| && Split(s, c)[0] == s[..|Split(s, c)[0]|]
    ensures s != [] && s[0] != c ==> Split(s, c)[0] != []
  {
    if s != [] {
      SplitFirstPiece(s[1..], c);
    }
  }

  /** The last piece of a split is a suffix of the string. */
  lemma {:induction false} SplitLastPiece(s: string, c: char)
    ensures var r := Split(s, c); |r[|r| - 1]| <= |s| && r[|r| - 1] == s[|s| - |r[|r| - 1]|..]
    ensures s != [] && s[|s| - 1] != c ==> var r := Split(s, c); r[|r| - 1] != []
  {
    if s != [] {
      SplitLastPiece(s[1..], c);
      var rest := Split(s[1..], c);
      if s[0] != c && |rest| == 1 {
        JoinSplit(s[1..], c);
        assert Split(s, c) == [[s[0]] + rest[0]];
        assert s == [s[0]] + s[1..];
      }
    }
  }

  /** A join of pieces begins with the first piece and ends with the last. */
  lemma {:induction false} JoinEnds(xs: seq<string>, c: char)
    requires |xs| >= 1
    ensures var r := Join(xs, c); |xs[0]| <= |r| && r[..|xs[0]|] == xs[0]
    ensures var r := Join(xs, c); var l := xs[|xs| - 1]; |l| <= |r| && r[|r| - |l|..] == l
  {
    if |xs| > 1 {
      var rest := Join(xs[1..], c);
      var tail := [c] + rest;
      var r := Join(xs, c);
      var l := xs[|xs| - 1];
      JoinEnds(xs[1..], c);
      assert l == xs[1..][|xs[1..]| - 1];
      assert r == xs[0] + tail;
      assert r[..|xs[0]|] == xs[0];
      assert tail[|tail| - |l|..] == rest[|rest| - |l|..];
      assert r[|r| - |l|..] == tail[|tail| - |l|..];
    }
  }
}
