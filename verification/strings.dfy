/** Go's strings.Split and strings.Join for a one-character separator. */
module Strings {

  /** strings.Split(s, string(sep)): the pieces of s between occurrences of sep.
      There is always at least one piece (Split("") is [""]), and no piece holds sep. */
  function Split(s: string, sep: char): (r: seq<string>)
    ensures |r| >= 1
    ensures forall i :: 0 <= i < |r| ==> sep !in r[i]
    decreases |s|
  {
    if s == [] then [""]
    else
      var rest := Split(s[1..], sep);
      if s[0] == sep then [""] + rest
      else [[s[0]] + rest[0]] + rest[1..]
  }

  /** strings.Join(ps, string(sep)): the pieces with sep between neighbours; Join([]) is "". */
  function Join(ps: seq<string>, sep: char): string
  {
    if ps == [] then ""
    else if |ps| == 1 then ps[0]
    else ps[0] + [sep] + Join(ps[1..], sep)
  }

  /** Join of a first piece and at least one more. */
  lemma JoinCons(p: string, ps: seq<string>, sep: char)
    requires |ps| >= 1
    ensures Join([p] + ps, sep) == p + [sep] + Join(ps, sep)
  {
    assert ([p] + ps)[1..] == ps;
  }

  /** No piece of ps holds sep. */
  predicate SepFree(ps: seq<string>, sep: char)
  {
    forall i :: 0 <= i < |ps| ==> sep !in ps[i]
  }

  /** Joining the pieces of a split gives back the string. */
  lemma {:induction false} JoinSplit(s: string, sep: char)
    ensures Join(Split(s, sep), sep) == s
    decreases |s|
  {
    if s != [] {
      var rest := Split(s[1..], sep);
      JoinSplit(s[1..], sep);
      if s[0] == sep {
        assert Split(s, sep) == [""] + rest;
        assert ([""] + rest)[1..] == rest;
        assert s == [sep] + s[1..];
      } else if |rest| == 1 {
        assert Split(s, sep) == [[s[0]] + rest[0]];
        assert s == [s[0]] + s[1..];
      } else {
        var r := Split(s, sep);
        assert r == [[s[0]] + rest[0]] + rest[1..];
        assert r[1..] == rest[1..];
        assert Join(rest, sep) == rest[0] + [sep] + Join(rest[1..], sep);
        assert s == [s[0]] + s[1..];
      }
    }
  }

  /** A string without sep is a single piece. */
  lemma {:induction false} SplitSepFree(p: string, sep: char)
    requires sep !in p
    ensures Split(p, sep) == [p]
    decreases |p|
  {
    if p != [] {
      SplitSepFree(p[1..], sep);
      assert [p[0]] + p[1..] == p;
    }
  }

  /** Splitting p + sep + t yields p followed by the pieces of t, when p holds no sep. */
  lemma {:induction false} SplitCons(p: string, t: string, sep: char)
    requires sep !in p
    ensures Split(p + [sep] + t, sep) == [p] + Split(t, sep)
    decreases |p|
  {
    var s := p + [sep] + t;
    if p == [] {
      assert s[0] == sep && s[1..] == t;
    } else {
      assert s[0] == p[0] && s[1..] == p[1..] + [sep] + t;
      SplitCons(p[1..], t, sep);
      assert [p[0]] + p[1..] == p;
    }
  }

  /** Splitting a join gives back the pieces, when there is at least one and none holds sep. */
  lemma {:induction false} SplitJoin(ps: seq<string>, sep: char)
    requires |ps| >= 1 && SepFree(ps, sep)
    ensures Split(Join(ps, sep), sep) == ps
    decreases |ps|
  {
    if |ps| == 1 {
      SplitSepFree(ps[0], sep);
    } else {
      assert SepFree(ps[1..], sep) by {
        forall i | 0 <= i < |ps| - 1 ensures sep !in ps[1..][i] { assert ps[1..][i] == ps[i + 1]; }
      }
      SplitJoin(ps[1..], sep);
      SplitCons(ps[0], Join(ps[1..], sep), sep);
      assert [ps[0]] + ps[1..] == ps;
    }
  }

  /** A join of one-character pieces alternates those characters with sep. */
  lemma {:induction false} JoinSingles(ps: seq<string>, sep: char)
    requires |ps| >= 1
    requires forall i :: 0 <= i < |ps| ==> |ps[i]| == 1
    ensures |Join(ps, sep)| == 2 * |ps| - 1
    ensures forall k :: 0 <= k < |ps| ==> Join(ps, sep)[2 * k] == ps[k][0]
    ensures forall k :: 0 <= k < |ps| - 1 ==> Join(ps, sep)[2 * k + 1] == sep
    decreases |ps|
  {
    if |ps| > 1 {
      JoinSingles(ps[1..], sep);
      var j := Join(ps, sep);
      var tail := Join(ps[1..], sep);
      assert j == ps[0] + [sep] + tail;
      forall k | 0 <= k < |ps| ensures j[2 * k] == ps[k][0] {
        if k > 0 { assert j[2 * k] == tail[2 * (k - 1)]; assert ps[1..][k - 1] == ps[k]; }
      }
      forall k | 0 <= k < |ps| - 1 ensures j[2 * k + 1] == sep {
        if k > 0 { assert j[2 * k + 1] == tail[2 * (k - 1) + 1]; }
      }
    }
  }
}
