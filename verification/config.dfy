/** internal/config/tools.go: environment lookup with a fallback, and the custom geohash text
    "<latInt>;<lonInt>/<d>/<d>/..." whose tail interleaves the six decimals of latitude and
    longitude. Float parsing and %.6f formatting are foreign: the model receives, for each
    input text, either nothing (ParseFloat failed) or the %.6f text of the parsed value. */
module Config {
  import opened Models
  import Strings
  import opened Strconv

  /** GetEnv: the environment's value whenever the key is set, even to "", else the fallback.
      The environment is passed in as a map. */
  function GetEnv(env: map<string, string>, key: string, fallback: string): (r: string)
    ensures key in env ==> r == env[key]
    ensures key !in env ==> r == fallback
  {
    if key in env then env[key] else fallback
  }

  /** An environment entry set to the empty text wins over the fallback. */
  lemma GetEnvEmptyIsKept(env: map<string, string>, key: string, fallback: string)
    requires key in env && env[key] == ""
    ensures GetEnv(env, key, fallback) == ""
  {
  }

  /** The text %.6f gives a finite float64: an optional '-', integer digits, '.', six digits. */
  predicate IsFixed6(text: string)
  {
    var parts := Strings.Split(text, '.');
    |parts| == 2 && IsIntText(parts[0]) && parts[0][0] != '+' && |parts[1]| == 6 && AllDigits(parts[1])
  }

  /** The %.6f text of a float with the given sign, integer digits and six decimals. */
  function Fixed6(negative: bool, whole: string, frac: string): string
  {
    (if negative then "-" else "") + whole + "." + frac
  }

  /** splitFloat over the %.6f text: Atoi of the text before '.', and the six decimals after it. */
  function SplitFloat(text: string): (r: (int, string))
    requires IsFixed6(text)
    ensures MinInt64 <= r.0 <= MaxInt64
    ensures |r.1| == 6 && AllDigits(r.1)
  {
    var parts := Strings.Split(text, '.');
    (Atoi(parts[0]), parts[1])
  }

  /** The integer part of a %.6f text: an optional '-' and the digits. */
  function SignedWhole(negative: bool, whole: string): string
  {
    (if negative then "-" else "") + whole
  }

  lemma SplitFixed6(negative: bool, whole: string, frac: string)
    requires AllDigits(whole) && AllDigits(frac)
    ensures Strings.Split(Fixed6(negative, whole, frac), '.') == [SignedWhole(negative, whole), frac]
  {
    var w := SignedWhole(negative, whole);
    assert Fixed6(negative, whole, frac) == w + ['.'] + frac;
    assert '.' !in w by {
      assert forall i :: 0 <= i < |whole| ==> whole[i] != '.';
      if negative { assert w == ['-'] + whole; }
    }
    assert '.' !in frac by { assert forall i :: 0 <= i < |frac| ==> frac[i] != '.'; }
    Strings.SplitCons(w, frac, '.');
    Strings.SplitSepFree(frac, '.');
  }

  /** The integer part of a %.6f text is integer text without '+', whose value is the digits'
      value with the sign. */
  lemma SignedWholeValue(negative: bool, whole: string)
    requires |whole| >= 1 && AllDigits(whole)
    ensures IsIntText(SignedWhole(negative, whole)) && SignedWhole(negative, whole)[0] != '+'
    ensures SignedValue(SignedWhole(negative, whole)) == if negative then -(Value(whole) as int) else Value(whole)
  {
    var w := SignedWhole(negative, whole);
    if negative {
      assert w == ['-'] + whole;
      assert w[0] == '-' && w[1..] == whole;
    } else {
      assert w == whole;
    }
  }

  /** splitFloat reads the integer part with its sign (clamped to int64) and keeps the
      decimals as they are. */
  lemma SplitFloatFixed6(negative: bool, whole: string, frac: string)
    requires |whole| >= 1 && AllDigits(whole)
    requires |frac| == 6 && AllDigits(frac)
    ensures IsFixed6(Fixed6(negative, whole, frac))
    ensures SplitFloat(Fixed6(negative, whole, frac))
         == (Clamp64(if negative then -(Value(whole) as int) else Value(whole)), frac)
  {
    SplitFixed6(negative, whole, frac);
    SignedWholeValue(negative, whole);
  }

  /** The sign of a value between -1 and 0 is lost: "-0.xxxxxx" gives integer part 0. */
  lemma SplitFloatNegativeZero(frac: string)
    requires |frac| == 6 && AllDigits(frac)
    ensures IsFixed6("-0." + frac)
    ensures SplitFloat("-0." + frac) == (0, frac)
  {
    SplitFloatFixed6(true, "0", frac);
    assert Fixed6(true, "0", frac) == "-0." + frac;
  }

  /** The pieces interleaveAndFormat collects from loop round i on: a[i] if there is one,
      then b[i] if there is one, then the later rounds. */
  function InterleaveFrom(a: string, b: string, i: nat): seq<string>
    decreases |a| + |b| - i
  {
    if i < |a| || i < |b| then Round(a, b, i) + InterleaveFrom(a, b, i + 1) else []
  }

  /** The pieces of loop round i. */
  function Round(a: string, b: string, i: nat): seq<string>
  {
    (if i < |a| then [[a[i]]] else []) + (if i < |b| then [[b[i]]] else [])
  }

  /** All the pieces interleaveAndFormat collects. */
  function Interleave(a: string, b: string): seq<string>
  {
    InterleaveFrom(a, b, 0)
  }

  /** Reference shape of the pieces: x[0], y[0], x[1], y[1], ... for strings of equal length. */
  function Pairs(x: string, y: string): (ps: seq<string>)
    requires |x| == |y|
    ensures |ps| == 2 * |x|
    ensures forall k :: 0 <= k < |ps| ==> |ps[k]| == 1
    decreases |x|
  {
    if x == [] then [] else [[x[0]], [y[0]]] + Pairs(x[1..], y[1..])
  }

  /** No piece of the pairs holds a character that neither string holds. */
  lemma {:induction false} PairsSepFree(x: string, y: string, sep: char)
    requires |x| == |y| && sep !in x && sep !in y
    ensures Strings.SepFree(Pairs(x, y), sep)
    decreases |x|
  {
    if x != [] {
      assert sep !in x[1..] && sep !in y[1..] by {
        assert forall c :: c in x[1..] ==> c in x;
        assert forall c :: c in y[1..] ==> c in y;
      }
      PairsSepFree(x[1..], y[1..], sep);
      var tail := Pairs(x[1..], y[1..]);
      forall k | 0 <= k < |Pairs(x, y)| ensures sep !in Pairs(x, y)[k] {
        if k >= 2 { assert Pairs(x, y)[k] == tail[k - 2]; }
      }
    }
  }

  /** Position 2k of the pairs holds x[k] and position 2k + 1 holds y[k]. */
  lemma {:induction false} PairsIndex(x: string, y: string)
    requires |x| == |y|
    ensures forall k :: 0 <= k < |x| ==> Pairs(x, y)[2 * k] == [x[k]] && Pairs(x, y)[2 * k + 1] == [y[k]]
    decreases |x|
  {
    if x != [] {
      var tail := Pairs(x[1..], y[1..]);
      PairsIndex(x[1..], y[1..]);
      forall k | 0 <= k < |x| ensures Pairs(x, y)[2 * k] == [x[k]] && Pairs(x, y)[2 * k + 1] == [y[k]] {
        if k > 0 {
          assert Pairs(x, y)[2 * k] == tail[2 * (k - 1)] && Pairs(x, y)[2 * k + 1] == tail[2 * (k - 1) + 1];
          assert x[1..][k - 1] == x[k] && y[1..][k - 1] == y[k];
        }
      }
    }
  }

  /** Reference shape of a leftover tail: one piece per character. */
  function Singles(s: string): (ps: seq<string>)
    ensures |ps| == |s|
    ensures forall k :: 0 <= k < |ps| ==> |ps[k]| == 1
    decreases |s|
  {
    if s == [] then [] else [[s[0]]] + Singles(s[1..])
  }

  /** Once b is used up, the rounds from i on give the rest of a, one character each. */
  lemma {:induction false} InterleaveFromTailA(a: string, b: string, i: nat)
    requires |b| <= i <= |a|
    ensures InterleaveFrom(a, b, i) == Singles(a[i..])
    decreases |a| - i
  {
    if i < |a| {
      InterleaveFromTailA(a, b, i + 1);
      assert a[i..][0] == a[i] && a[i..][1..] == a[i + 1..];
      assert Round(a, b, i) == [[a[i]]];
    }
  }

  /** Once a is used up, the rounds from i on give the rest of b, one character each. */
  lemma {:induction false} InterleaveFromTailB(a: string, b: string, i: nat)
    requires |a| <= i <= |b|
    ensures InterleaveFrom(a, b, i) == Singles(b[i..])
    decreases |b| - i
  {
    if i < |b| {
      InterleaveFromTailB(a, b, i + 1);
      assert b[i..][0] == b[i] && b[i..][1..] == b[i + 1..];
      assert Round(a, b, i) == [[b[i]]];
    }
  }

  /** While both strings last, each round gives a[i] then b[i]. */
  lemma {:induction false} InterleaveFromPairs(a: string, b: string, i: nat, m: nat)
    requires m <= |a| && m <= |b| && i <= m
    ensures InterleaveFrom(a, b, i) == Pairs(a[i..m], b[i..m]) + InterleaveFrom(a, b, m)
    decreases m - i
  {
    if i < m {
      InterleaveFromPairs(a, b, i + 1, m);
      var rest := InterleaveFrom(a, b, i + 1);
      var q := Pairs(a[i + 1..m], b[i + 1..m]);
      assert a[i..m][0] == a[i] && a[i..m][1..] == a[i + 1..m];
      assert b[i..m][0] == b[i] && b[i..m][1..] == b[i + 1..m];
      assert Pairs(a[i..m], b[i..m]) == [[a[i]], [b[i]]] + q;
      assert Round(a, b, i) == [[a[i]], [b[i]]];
      assert Round(a, b, i) + (q + InterleaveFrom(a, b, m)) == ([[a[i]], [b[i]]] + q) + InterleaveFrom(a, b, m);
    } else {
      assert a[i..m] == [] && b[i..m] == [];
    }
  }

  /** interleaveAndFormat's pieces: the two strings alternate over their common length, then
      the leftover tail of the longer one follows, one character per piece. */
  lemma InterleaveShape(a: string, b: string)
    ensures var m := if |a| <= |b| then |a| else |b|;
      Interleave(a, b) == Pairs(a[..m], b[..m]) + Singles(a[m..]) + Singles(b[m..])
    ensures |Interleave(a, b)| == |a| + |b|
  {
    var m := if |a| <= |b| then |a| else |b|;
    InterleaveFromPairs(a, b, 0, m);
    assert a[0..m] == a[..m] && b[0..m] == b[..m];
    if m == |a| {
      InterleaveFromTailB(a, b, m);
      assert a[m..] == [];
    } else {
      InterleaveFromTailA(a, b, m);
      assert b[m..] == [];
    }
  }

  lemma Regroup<T>(w: seq<T>, x: seq<T>, y: seq<T>, z: seq<T>)
    ensures w + ((x + y) + z) == ((w + x) + y) + z
  {
  }

  /** interleaveAndFormat: the digits of a and b taken alternately, each as its own piece,
      joined by '/'. */
  method InterleaveAndFormat(a: string, b: string) returns (s: string)
    ensures s == Strings.Join(Interleave(a, b), '/')
  {
    var result: seq<string> := [];
    var i := 0;
    while i < |a| || i < |b|
      invariant result + InterleaveFrom(a, b, i) == Interleave(a, b)
      decreases |a| + |b| - i
    {
      ghost var before := result;
      ghost var fromA: seq<string> := if i < |a| then [[a[i]]] else [];
      ghost var fromB: seq<string> := if i < |b| then [[b[i]]] else [];
      if i < |a| {
        result := result + [[a[i]]];
      }
      assert result == before + fromA;
      if i < |b| {
        result := result + [[b[i]]];
      }
      assert result == (before + fromA) + fromB;
      ghost var rest := InterleaveFrom(a, b, i + 1);
      assert InterleaveFrom(a, b, i) == (fromA + fromB) + rest;
      Regroup(before, fromA, fromB, rest);
      i := i + 1;
    }
    assert InterleaveFrom(a, b, i) == [];
    assert result == Interleave(a, b);
    s := Strings.Join(result, '/');
  }

  /** The text interleaveAndFormat returns: every character of a and b once, separated by
      single slashes: |a| + |b| pieces and a slash between each two; "" for two empty inputs. */
  lemma InterleaveAndFormatLength(a: string, b: string)
    ensures |a| + |b| == 0 ==> Strings.Join(Interleave(a, b), '/') == ""
    ensures |a| + |b| > 0 ==> |Strings.Join(Interleave(a, b), '/')| == 2 * (|a| + |b|) - 1
    ensures forall k :: 0 <= k < |a| + |b| - 1 ==> Strings.Join(Interleave(a, b), '/')[2 * k + 1] == '/'
  {
    InterleaveShape(a, b);
    var ps := Interleave(a, b);
    var m := if |a| <= |b| then |a| else |b|;
    if |ps| > 0 {
      assert forall k :: 0 <= k < |ps| ==> |ps[k]| == 1 by {
        assert ps == Pairs(a[..m], b[..m]) + Singles(a[m..]) + Singles(b[m..]);
      }
      Strings.JoinSingles(ps, '/');
    }
  }

  /** ConvertToCustomGeohash: "<latInt>;<lonInt>/" followed by the interleaved decimals.
      `formatFloat(t)` is None when strconv.ParseFloat rejects t, else the %.6f text of the value.
      The latitude is checked first: a bad longitude is reported only for a good latitude. */
  function ConvertToCustomGeohash(latS: string, lonS: string, formatFloat: string -> Option<string>): (r: Result<string>)
    requires formatFloat(latS).Some? && formatFloat(lonS).Some? ==>
      IsFixed6(formatFloat(latS).value) && IsFixed6(formatFloat(lonS).value)
    ensures formatFloat(latS).None? ==> r == Err(InvalidLatitude(latS))
    ensures formatFloat(latS).Some? && formatFloat(lonS).None? ==> r == Err(InvalidLongitude(lonS))
    ensures r.Ok? <==> formatFloat(latS).Some? && formatFloat(lonS).Some?
  {
    match formatFloat(latS)
    case None => Err(InvalidLatitude(latS))
    case Some(latText) =>
      match formatFloat(lonS)
      case None => Err(InvalidLongitude(lonS))
      case Some(lonText) =>
        var (latInt, latFrac) := SplitFloat(latText);
        var (lonInt, lonFrac) := SplitFloat(lonText);
        var geohashHead := FormatInt(latInt) + ";" + FormatInt(lonInt);
        var geohashTail := Strings.Join(Interleave(latFrac, lonFrac), '/');
        Ok(geohashHead + "/" + geohashTail)
  }

  /** A latitude ParseFloat accepts but %.6f cannot print as digits (NaN) does not stop a bad
      longitude from being reported: splitFloat is reached only when both texts parse. */
  lemma NonFiniteLatitudeBadLongitude(formatFloat: string -> Option<string>)
    requires formatFloat("NaN") == Some("NaN") && formatFloat("x") == None
    ensures ConvertToCustomGeohash("NaN", "x", formatFloat) == Err(InvalidLongitude("x"))
  {
  }

  /** The head "<latInt>;<lonInt>" holds no '/' and splits on ';' into the two integers. */
  lemma GeohashHead(latInt: int, lonInt: int)
    ensures '/' !in FormatInt(latInt) + ";" + FormatInt(lonInt)
    ensures Strings.Split(FormatInt(latInt) + ";" + FormatInt(lonInt), ';') == [FormatInt(latInt), FormatInt(lonInt)]
  {
    var latText, lonText := FormatInt(latInt), FormatInt(lonInt);
    FormatIntChars(latInt);
    FormatIntChars(lonInt);
    assert ';' !in latText && ';' !in lonText && '/' !in latText && '/' !in lonText;
    Strings.SplitCons(latText, lonText, ';');
    Strings.SplitSepFree(lonText, ';');
  }

  /** The tail's pieces for two six-digit decimal parts: twelve single digits, alternating. */
  lemma GeohashTail(latFrac: string, lonFrac: string)
    requires |latFrac| == 6 && AllDigits(latFrac) && |lonFrac| == 6 && AllDigits(lonFrac)
    ensures |Interleave(latFrac, lonFrac)| == 12
    ensures Strings.SepFree(Interleave(latFrac, lonFrac), '/')
    ensures forall k :: 0 <= k < 6 ==>
      Interleave(latFrac, lonFrac)[2 * k] == [latFrac[k]] && Interleave(latFrac, lonFrac)[2 * k + 1] == [lonFrac[k]]
  {
    var ps := Interleave(latFrac, lonFrac);
    InterleaveShape(latFrac, lonFrac);
    assert latFrac[..6] == latFrac && lonFrac[..6] == lonFrac && latFrac[6..] == [] && lonFrac[6..] == [];
    assert ps == Pairs(latFrac, lonFrac);
    PairsIndex(latFrac, lonFrac);
    assert '/' !in latFrac && '/' !in lonFrac by {
      assert forall i :: 0 <= i < 6 ==> latFrac[i] != '/' && lonFrac[i] != '/';
    }
    PairsSepFree(latFrac, lonFrac, '/');
  }

  /** A successful geohash splits on '/' into 13 parts: the head "<latInt>;<lonInt>" (one ';',
      no '/'), then the twelve decimals, latitude and longitude alternating. */
  lemma GeohashShape(latS: string, lonS: string, formatFloat: string -> Option<string>)
    requires formatFloat(latS).Some? && IsFixed6(formatFloat(latS).value)
    requires formatFloat(lonS).Some? && IsFixed6(formatFloat(lonS).value)
    ensures var (latInt, latFrac) := SplitFloat(formatFloat(latS).value);
      var (lonInt, lonFrac) := SplitFloat(formatFloat(lonS).value);
      var parts := Strings.Split(ConvertToCustomGeohash(latS, lonS, formatFloat).value, '/');
      && |parts| == 13
      && Strings.Split(parts[0], ';') == [FormatInt(latInt), FormatInt(lonInt)]
      && (forall k :: 0 <= k < 6 ==> parts[1 + 2 * k] == [latFrac[k]] && parts[2 + 2 * k] == [lonFrac[k]])
  {
    var (latInt, latFrac) := SplitFloat(formatFloat(latS).value);
    var (lonInt, lonFrac) := SplitFloat(formatFloat(lonS).value);
    var head := FormatInt(latInt) + ";" + FormatInt(lonInt);
    var ps := Interleave(latFrac, lonFrac);
    GeohashHead(latInt, lonInt);
    GeohashTail(latFrac, lonFrac);
    Strings.SplitJoin(ps, '/');
    Strings.SplitCons(head, Strings.Join(ps, '/'), '/');
    assert ConvertToCustomGeohash(latS, lonS, formatFloat).value == head + ['/'] + Strings.Join(ps, '/');
    var parts := Strings.Split(ConvertToCustomGeohash(latS, lonS, formatFloat).value, '/');
    assert parts == [head] + ps;
    forall k | 0 <= k < 6
      ensures parts[1 + 2 * k] == [latFrac[k]] && parts[2 + 2 * k] == [lonFrac[k]]
    {
      assert parts[1 + 2 * k] == ps[2 * k] && parts[2 + 2 * k] == ps[2 * k + 1];
    }
  }
}
