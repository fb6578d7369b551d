/**
 * The JavaScript string operations the rating app relies on: String.prototype.split
 * and Array.prototype.join with a one-character separator, and String.prototype.trim.
 */
module Text {

  /**
   * The characters String.prototype.trim removes: the WhiteSpace and LineTerminator
   * code points of ECMAScript (tab, line feed, vertical tab, form feed, carriage return,
   * space, no-break space, the Unicode space separators, line and paragraph separator,
   * and the byte order mark).
   */
  predicate IsSpace(c: char) {
    c in {'\t', '\n', '\U{000B}', '\U{000C}', '\r', ' ', '\U{00A0}', '\U{1680}',
          '\U{2028}', '\U{2029}', '\U{202F}', '\U{205F}', '\U{3000}', '\U{FEFF}'}
    || '\U{2000}' <= c <= '\U{200A}'
  }

  predicate AllSpace(s: string) {
    forall i :: 0 <= i < |s| ==> IsSpace(s[i])
  }

  /** No whitespace at either end. */
  predicate Trimmed(s: string) {
    s != [] ==> !IsSpace(s[0]) && !IsSpace(s[|s| - 1])
  }

  /** The parts glued together with `sep` between neighbours; no parts give "". */
  function Join(parts: seq<string>, sep: char): string
  {
    if |parts| == 0 then []
    else if |parts| == 1 then parts[0]
    else parts[0] + [sep] + Join(parts[1..], sep)
  }

  /** A longer list joins as its head, the separator, and the join of the rest. */
  lemma JoinHead(parts: seq<string>, sep: char)
    requires |parts| >= 2
    ensures Join(parts, sep) == parts[0] + [sep] + Join(parts[1..], sep)
  {
  }

  /** Moving the first character of the first part out in front of the join. */
  lemma JoinFirstChar(c: char, h: string, rest: seq<string>, sep: char)
    ensures Join([[c] + h] + rest, sep) == [c] + Join([h] + rest, sep)
  {
    var p, q := [[c] + h] + rest, [h] + rest;
    assert p[1..] == rest && q[1..] == rest;
    if |rest| > 0 {
      assert Join(p, sep) == ([c] + h) + [sep] + Join(rest, sep);
      assert Join(q, sep) == h + [sep] + Join(rest, sep);
    }
  }

  /**
   * s.split(sep): the maximal pieces of `s` between occurrences of `sep`, so that
   * "" gives [""] and "a," gives ["a", ""]. The pieces contain no separator and
   * joining them back with `sep` gives `s`.
   */
  function Split(s: string, sep: char): (parts: seq<string>)
    ensures |parts| >= 1
    ensures forall i :: 0 <= i < |parts| ==> sep !in parts[i]
    ensures Join(parts, sep) == s
    decreases |s|
  {
    if s == [] then [[]]
    else
      var rest := Split(s[1..], sep);
      if s[0] == sep then
        assert Join([[]] + rest, sep) == [] + [sep] + Join(rest, sep) by {
          assert ([[]] + rest)[1..] == rest;
        }
        [[]] + rest
      else
        assert Join([[s[0]] + rest[0]] + rest[1..], sep) == [s[0]] + Join(rest, sep) by {
          JoinFirstChar(s[0], rest[0], rest[1..], sep);
          assert [rest[0]] + rest[1..] == rest;
        }
        [[s[0]] + rest[0]] + rest[1..]
  }

  /**
   * Split is the only separator-free way to cut `s`: any non-empty list of
   * separator-free parts that joins to `s` is Split(s, sep).
   */
  lemma {:induction false} SplitUnique(s: string, parts: seq<string>, sep: char)
    requires parts != [] && forall i :: 0 <= i < |parts| ==> sep !in parts[i]
    requires Join(parts, sep) == s
    ensures Split(s, sep) == parts
    decreases |s|
  {
    if |parts| >= 2 {
      JoinHead(parts, sep);
    }
    if s == [] {
      assert |parts| == 1;
    } else if parts[0] == [] {
      assert |parts| >= 2;
      assert s[1..] == Join(parts[1..], sep);
      SplitUnique(s[1..], parts[1..], sep);
      assert [[]] + parts[1..] == parts;
    } else {
      var c, h, rest := parts[0][0], parts[0][1..], parts[1..];
      assert parts[0] == [c] + h && parts == [[c] + h] + rest;
      JoinFirstChar(c, h, rest, sep);
      var shorter := [h] + rest;
      assert s[1..] == Join(shorter, sep);
      assert forall i :: 0 <= i < |shorter| ==> sep !in shorter[i] by {
        forall i | 0 <= i < |shorter|
          ensures sep !in shorter[i]
        {
          if i == 0 {
            assert forall x :: x in h ==> x in parts[0];
          } else {
            assert shorter[i] == parts[i];
          }
        }
      }
      SplitUnique(s[1..], shorter, sep);
    }
  }

  /** Joining separator-free parts and splitting again gives the parts back. */
  lemma SplitOfJoin(parts: seq<string>, sep: char)
    requires parts != [] && forall i :: 0 <= i < |parts| ==> sep !in parts[i]
    ensures Split(Join(parts, sep), sep) == parts
  {
    SplitUnique(Join(parts, sep), parts, sep);
  }

  /** s.trimStart(): `s` without its leading whitespace. */
  function TrimStart(s: string): (r: string)
    ensures |r| <= |s| && AllSpace(s[..|s| - |r|])
    ensures r != [] ==> !IsSpace(r[0])
    decreases |s|
  {
    if s != [] && IsSpace(s[0]) then
      var r := TrimStart(s[1..]);
      assert s[..|s| - |r|] == [s[0]] + s[1..][..|s| - 1 - |r|];
      r
    else s
  }

  /** What trimStart keeps is the tail of `s` (kept out of TrimStart's own
      contract: a result that may equal `s` would make that equation
      unfold without end). */
  lemma {:induction false} TrimStartSuffix(s: string)
    ensures TrimStart(s) == s[|s| - |TrimStart(s)|..]
    decreases |s|
  {
    if s != [] && IsSpace(s[0]) {
      TrimStartSuffix(s[1..]);
      assert s[1..][|s| - 1 - |TrimStart(s)|..] == s[|s| - |TrimStart(s)|..];
    }
  }

  /** s.trimEnd(): `s` without its trailing whitespace. */
  function TrimEnd(s: string): (r: string)
    ensures |r| <= |s| && r == s[..|r|]
    ensures AllSpace(s[|r|..])
    ensures r != [] ==> !IsSpace(r[|r| - 1])
    decreases |s|
  {
    if s != [] && IsSpace(s[|s| - 1]) then
      var r := TrimEnd(s[..|s| - 1]);
      assert s[|r|..] == s[..|s| - 1][|r|..] + [s[|s| - 1]];
      r
    else s
  }

  /** How many leading whitespace characters trim removes. */
  function Lead(s: string): (n: nat)
    ensures n <= |s| && AllSpace(s[..n])
    ensures n < |s| ==> !IsSpace(s[n])
  {
    TrimStartSuffix(s);
    |s| - |TrimStart(s)|
  }

  /** s.trim(): `s` without whitespace at either end. */
  function Trim(s: string): (r: string)
    ensures |r| <= |s| && Trimmed(r)
  {
    var t := TrimStart(s);
    var r := TrimEnd(t);
    assert r != [] ==> r[0] == t[0];
    r
  }

  /**
   * Where Trim(s) sits in `s`: right after the Lead(s) leading whitespace characters,
   * with only whitespace after it.
   */
  lemma TrimShape(s: string)
    ensures Lead(s) + |Trim(s)| <= |s| && Trim(s) == s[Lead(s)..Lead(s) + |Trim(s)|]
    ensures AllSpace(s[Lead(s) + |Trim(s)|..])
  {
    TrimIsSlice(s);
    TrimFollowedBySpace(s);
  }

  /** Trim(s) is the slice of `s` that starts after the leading whitespace. */
  lemma TrimIsSlice(s: string)
    ensures Lead(s) + |Trim(s)| <= |s| && Trim(s) == s[Lead(s)..Lead(s) + |Trim(s)|]
  {
    var t := TrimStart(s);
    TrimStartSuffix(s);
    TrimEndInSuffix(s, t, |s| - |t|);
    assert Trim(s) == TrimEnd(t);
  }

  /** Only whitespace follows Trim(s) in `s`. */
  lemma TrimFollowedBySpace(s: string)
    ensures Lead(s) + |Trim(s)| <= |s| && AllSpace(s[Lead(s) + |Trim(s)|..])
  {
    var t := TrimStart(s);
    TrimStartSuffix(s);
    TrimEndInSuffix(s, t, |s| - |t|);
    assert Trim(s) == TrimEnd(t);
  }

  /** Trimming the end of a suffix t == s[i..] leaves a slice of `s` followed only by whitespace. */
  lemma TrimEndInSuffix(s: string, t: string, i: nat)
    requires i <= |s| && t == s[i..]
    ensures i + |TrimEnd(t)| <= |s|
    ensures TrimEnd(t) == s[i..i + |TrimEnd(t)|]
    ensures AllSpace(s[i + |TrimEnd(t)|..])
  {
    var r := TrimEnd(t);
    assert t[..|r|] == s[i..i + |r|];
    assert t[|r|..] == s[i + |r|..];
  }

  /** Trim gives "" exactly for a string made only of whitespace. */
  lemma TrimEmptyIff(s: string)
    ensures Trim(s) == [] <==> AllSpace(s)
  {
    var r, start := Trim(s), Lead(s);
    TrimShape(s);
    if r == [] {
      assert s[..start] == s;
    } else {
      assert s[start] == r[0];
    }
  }

  /** A string with no whitespace at its ends is its own trim. */
  lemma TrimOfTrimmed(s: string)
    requires Trimmed(s)
    ensures Trim(s) == s
  {
    assert TrimStart(s) == s;
    assert TrimEnd(s) == s;
  }

  /** Trimming twice is trimming once. */
  lemma TrimIdempotent(s: string)
    ensures Trim(Trim(s)) == Trim(s)
  {
    TrimOfTrimmed(Trim(s));
  }

  /** Trim only removes characters: a character missing from `s` is missing from Trim(s). */
  lemma TrimKeepsAbsence(s: string, c: char)
    requires c !in s
    ensures c !in Trim(s)
  {
    var r, start := Trim(s), Lead(s);
    TrimShape(s);
    assert forall i :: 0 <= i < |r| ==> r[i] == s[start + i];
  }
}
