/** The JavaScript string built-ins the page relies on, over `string` (a sequence
    of characters): `split` on a one-character separator, its inverse `join`,
    `startsWith`, `trim` and `toUpperCase` (the last two restricted to ASCII). */
module Text {

  /** `s.split(sep)` for a one-character separator: every separator ends one
      part and starts the next, so a string with k separators has k + 1 parts
      and the empty string splits into the single part "". */
  function Split(s: string, sep: char): (parts: seq<string>)
    ensures |parts| >= 1
    ensures forall i :: 0 <= i < |parts| ==> sep !in parts[i]
    decreases |s|
  {
    if s == [] then [""]
    else
      var tail := Split(s[1..], sep);
      if s[0] == sep then [""] + tail
      else [[s[0]] + tail[0]] + tail[1..]
  }

  /** `parts.join(sep)`: the parts with one separator between neighbours. */
  function Join(parts: seq<string>, sep: char): string
    decreases |parts|
  {
    if |parts| == 0 then ""
    else if |parts| == 1 then parts[0]
    else parts[0] + [sep] + Join(parts[1..], sep)
  }

  /** The parts of every string of `lines`, in order. */
  function SplitAll(lines: seq<string>, sep: char): seq<string>
    decreases |lines|
  {
    if lines == [] then [] else Split(lines[0], sep) + SplitAll(lines[1..], sep)
  }

  lemma JoinCons(x: string, rest: seq<string>, sep: char)
    requires |rest| >= 1
    ensures Join([x] + rest, sep) == x + [sep] + Join(rest, sep)
  {
    assert ([x] + rest)[1..] == rest;
  }

  /** Joining two non-empty lists puts one separator between their joins. */
  lemma {:induction false} JoinAppend(a: seq<string>, b: seq<string>, sep: char)
    requires |a| >= 1 && |b| >= 1
    ensures Join(a + b, sep) == Join(a, sep) + [sep] + Join(b, sep)
    decreases |a|
  {
    if |a| == 1 {
      assert a + b == [a[0]] + b;
      JoinCons(a[0], b, sep);
    } else {
      assert a + b == [a[0]] + (a[1..] + b);
      JoinCons(a[0], a[1..] + b, sep);
      JoinAppend(a[1..], b, sep);
      assert a == [a[0]] + a[1..];
      JoinCons(a[0], a[1..], sep);
    }
  }

  /** Gluing two neighbouring parts with the separator does not change the join. */
  lemma JoinMerge(a: seq<string>, x: string, y: string, b: seq<string>, sep: char)
    ensures Join(a + [x + [sep] + y] + b, sep) == Join(a + [x, y] + b, sep)
  {
    var m := [x + [sep] + y];
    var p := [x, y];
    JoinCons(x, [y], sep);
    assert Join(m, sep) == Join(p, sep);
    if b != [] {
      JoinAppend(m, b, sep);
      JoinAppend(p, b, sep);
    }
    assert Join(m + b, sep) == Join(p + b, sep);
    if a != [] {
      JoinAppend(a, m + b, sep);
      JoinAppend(a, p + b, sep);
      assert a + [x + [sep] + y] + b == a + (m + b);
      assert a + [x, y] + b == a + (p + b);
    } else {
      assert a + [x + [sep] + y] + b == m + b;
      assert a + [x, y] + b == p + b;
    }
  }

  /** Round trip: joining the parts of a split gives back the string. */
  lemma {:induction false} SplitJoin(s: string, sep: char)
    ensures Join(Split(s, sep), sep) == s
    decreases |s|
  {
    if s != [] {
      var tail := Split(s[1..], sep);
      SplitJoin(s[1..], sep);
      if s[0] == sep {
        JoinCons("", tail, sep);
        assert s == [s[0]] + s[1..];
      } else if |tail| == 1 {
        assert s == [s[0]] + s[1..];
      } else {
        assert tail == [tail[0]] + tail[1..];
        JoinCons(tail[0], tail[1..], sep);
        JoinCons([s[0]] + tail[0], tail[1..], sep);
        assert s == [s[0]] + s[1..];
      }
    }
  }

  /** A string without the separator is its own single part. */
  lemma {:induction false} SplitNoSep(s: string, sep: char)
    requires sep !in s
    ensures Split(s, sep) == [s]
    decreases |s|
  {
    if s != [] {
      assert sep !in s[1..] by {
        forall k | 0 <= k < |s[1..]| ensures s[1..][k] != sep {
          assert s[1..][k] == s[k + 1];
        }
      }
      SplitNoSep(s[1..], sep);
      assert s == [s[0]] + s[1..];
    }
  }

  /** Splitting at a separator splits each side on its own. */
  lemma {:induction false} SplitAppend(a: string, b: string, sep: char)
    ensures Split(a + [sep] + b, sep) == Split(a, sep) + Split(b, sep)
    decreases |a|
  {
    var s := a + [sep] + b;
    if a == [] {
      assert s == [sep] + b;
      assert s[1..] == b;
    } else {
      assert s[0] == a[0];
      assert s[1..] == a[1..] + [sep] + b;
      SplitAppend(a[1..], b, sep);
      var A := Split(a[1..], sep);
      var B := Split(b, sep);
      assert Split(s[1..], sep) == A + B;
      if a[0] == sep {
        assert Split(s, sep) == [""] + (A + B);
        assert Split(a, sep) == [""] + A;
      } else {
        assert (A + B)[0] == A[0];
        assert (A + B)[1..] == A[1..] + B;
        assert Split(s, sep) == [[a[0]] + A[0]] + (A[1..] + B);
        assert Split(a, sep) == [[a[0]] + A[0]] + A[1..];
      }
    }
  }

  /** A string holds the separator exactly when it splits into two or more parts. */
  lemma SplitCount(s: string, sep: char)
    ensures |Split(s, sep)| == 1 <==> sep !in s
  {
    if sep in s {
      var i :| 0 <= i < |s| && s[i] == sep;
      assert s == s[..i] + [sep] + s[i + 1..];
      SplitAppend(s[..i], s[i + 1..], sep);
    } else {
      SplitNoSep(s, sep);
    }
  }

  /** The other round trip: parts free of the separator are recovered by
      splitting their join. */
  lemma {:induction false} JoinSplit(parts: seq<string>, sep: char)
    requires |parts| >= 1
    requires forall i :: 0 <= i < |parts| ==> sep !in parts[i]
    ensures Split(Join(parts, sep), sep) == parts
    decreases |parts|
  {
    SplitNoSep(parts[0], sep);
    if |parts| > 1 {
      JoinSplit(parts[1..], sep);
      SplitAppend(parts[0], Join(parts[1..], sep), sep);
      assert parts == [parts[0]] + parts[1..];
    }
  }

  /** Splitting a join of lines splits every line in place. */
  lemma {:induction false} SplitOfJoin(lines: seq<string>, sep: char)
    requires |lines| >= 1
    ensures Split(Join(lines, sep), sep) == SplitAll(lines, sep)
    decreases |lines|
  {
    if |lines| == 1 {
      assert lines[1..] == [];
    } else {
      SplitOfJoin(lines[1..], sep);
      SplitAppend(lines[0], Join(lines[1..], sep), sep);
    }
  }

  /** A part of a line list's parts is a part of one of the lines. */
  lemma {:induction false} InSplitAll(lines: seq<string>, sep: char, w: string)
    requires w in SplitAll(lines, sep)
    ensures exists i :: 0 <= i < |lines| && w in Split(lines[i], sep)
    decreases |lines|
  {
    if w !in Split(lines[0], sep) {
      InSplitAll(lines[1..], sep, w);
      var i :| 0 <= i < |lines[1..]| && w in Split(lines[1..][i], sep);
      assert lines[1..][i] == lines[i + 1];
    }
  }

  /** `s.startsWith(prefix)`: `s` is `prefix` followed by some rest. */
  predicate StartsWith(s: string, prefix: string): (b: bool)
    ensures b ==> |prefix| <= |s| && s == prefix + s[|prefix|..]
    ensures forall rest :: s == prefix + rest ==> b
  {
    |prefix| <= |s| && s[..|prefix|] == prefix
  }

  /** The ASCII white-space characters `trim` removes: tab, line feed, vertical
      tab, form feed, carriage return and space. */
  predicate IsWhite(c: char)
  {
    c == ' ' || ('\t' <= c <= '\r')
  }

  /** Drops leading white space; what remains is a suffix of `s`. */
  function TrimStart(s: string): (r: string)
    ensures |r| <= |s| && r == s[|s| - |r|..]
    ensures forall i :: 0 <= i < |s| - |r| ==> IsWhite(s[i])
    ensures r == [] || !IsWhite(r[0])
    decreases |s|
  {
    if s != [] && IsWhite(s[0]) then TrimStart(s[1..]) else s
  }

  /** Drops trailing white space; what remains is a prefix of `s`. */
  function TrimEnd(s: string): (r: string)
    ensures |r| <= |s| && r == s[..|r|]
    ensures forall i :: |r| <= i < |s| ==> IsWhite(s[i])
    ensures r == [] || !IsWhite(r[|r| - 1])
    decreases |s|
  {
    if s != [] && IsWhite(s[|s| - 1]) then TrimEnd(s[..|s| - 1]) else s
  }

  /** `s.trim()`: a prefix of what `TrimStart` leaves, with only white space
      cut after it (so a contiguous piece of `s` with only white space cut away
      around it), and no white space left at either end. */
  function Trim(s: string): (r: string)
    ensures r <= TrimStart(s)
    ensures forall i :: |r| <= i < |TrimStart(s)| ==> IsWhite(TrimStart(s)[i])
    ensures r == [] || (!IsWhite(r[0]) && !IsWhite(r[|r| - 1]))
  {
    TrimEnd(TrimStart(s))
  }

  /** Trimming twice is trimming once. */
  lemma TrimIdempotent(s: string)
    ensures Trim(Trim(s)) == Trim(s)
  {
    var r := Trim(s);
    assert TrimStart(r) == r;
    assert TrimEnd(r) == r;
  }

  predicate IsLower(c: char)
  {
    'a' <= c <= 'z'
  }

  /** ASCII upper-casing of one character: a lower-case letter becomes the
      matching capital, 32 code points lower; every other character stays. */
  function UpperChar(c: char): (u: char)
    ensures !IsLower(u)
    ensures IsLower(c) ==> u as int == c as int - 32 && 'A' <= u <= 'Z'
    ensures !IsLower(c) ==> u == c
  {
    if IsLower(c) then (c as int - 32) as char else c
  }

  /** `s.toUpperCase()` for ASCII letters: same length, each lower-case letter
      replaced by its capital and every other character kept, so no lower-case
      letter is left. */
  function ToUpper(s: string): (r: string)
    ensures |r| == |s|
    ensures forall i :: 0 <= i < |s| ==>
      (IsLower(s[i]) ==> r[i] as int == s[i] as int - 32) && (!IsLower(s[i]) ==> r[i] == s[i])
    ensures forall i :: 0 <= i < |r| ==> !IsLower(r[i])
  {
    seq(|s|, i requires 0 <= i < |s| => UpperChar(s[i]))
  }

  /** Every string of `lines`, upper-cased. */
  function UpperAll(lines: seq<string>): (r: seq<string>)
    ensures |r| == |lines|
  {
    seq(|lines|, i requires 0 <= i < |lines| => ToUpper(lines[i]))
  }

  /** Upper-casing each line and then joining with spaces is upper-casing the
      joined text: spaces are left alone. */
  lemma {:induction false} UpperJoin(lines: seq<string>)
    ensures Join(UpperAll(lines), ' ') == ToUpper(Join(lines, ' '))
    decreases |lines|
  {
    if |lines| > 1 {
      UpperJoin(lines[1..]);
      assert UpperAll(lines)[1..] == UpperAll(lines[1..]);
      var j := Join(lines[1..], ' ');
      assert ToUpper(lines[0] + [' '] + j) == ToUpper(lines[0]) + [' '] + ToUpper(j);
    }
  }
}
