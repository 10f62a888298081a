/** The few string operations of Go's `strings` package that the window
    manager relies on, over `string` (= `seq<char>`), one `char` per byte. */
module Text {

  /** Number of occurrences of `c` in `s`. */
  function Count(s: string, c: char): nat
  {
    if s == [] then 0 else (if s[0] == c then 1 else 0) + Count(s[1..], c)
  }

  /** A character occurs somewhere exactly when its count is positive. */
  lemma {:induction false} CountPositive(s: string, c: char)
    ensures Count(s, c) > 0 <==> c in s
  {
    if s != [] {
      CountPositive(s[1..], c);
      assert s == [s[0]] + s[1..];
    }
  }

  /** `strings.Split(s, string(sep))`: the pieces of `s` between occurrences
      of `sep`; the empty string splits into one empty piece. */
  function Split(s: string, sep: char): (r: seq<string>)
    ensures |r| == Count(s, sep) + 1
  {
    if s == [] then [""]
    else
      var rest := Split(s[1..], sep);
      if s[0] == sep then [""] + rest
      else [[s[0]] + rest[0]] + rest[1..]
  }

  /** No piece of a split contains the separator. */
  lemma {:induction false} SplitPiecesSepFree(s: string, sep: char)
    ensures forall k :: 0 <= k < |Split(s, sep)| ==> sep !in Split(s, sep)[k]
  {
    if s != [] {
      SplitPiecesSepFree(s[1..], sep);
      var rest := Split(s[1..], sep);
      if s[0] != sep {
        var r := Split(s, sep);
        assert r[0] == [s[0]] + rest[0];
        forall k | 1 <= k < |r| ensures sep !in r[k] {
          assert r[k] == rest[k];
        }
      }
    }
  }

  /** Occurrences in a concatenation add up. */
  lemma {:induction false} CountConcat(a: string, b: string, c: char)
    ensures Count(a + b, c) == Count(a, c) + Count(b, c)
  {
    if a == [] {
      assert a + b == b;
    } else {
      assert (a + b)[1..] == a[1..] + b;
      CountConcat(a[1..], b, c);
    }
  }

  /** `strings.Join(parts, string(sep))`: the parts with one separator
      between neighbours, so separator-free parts give exactly one separator
      fewer than there are parts. */
  function Join(parts: seq<string>, sep: char): (r: string)
    ensures parts != [] && (forall k :: 0 <= k < |parts| ==> sep !in parts[k]) ==>
      Count(r, sep) == |parts| - 1
  {
    if parts == [] then ""
    else if |parts| == 1 then CountPositive(parts[0], sep); parts[0]
    else
      var rest := Join(parts[1..], sep);
      assert (forall k :: 0 <= k < |parts| ==> sep !in parts[k]) ==>
        forall k :: 0 <= k < |parts| - 1 ==> sep !in parts[1..][k];
      CountPositive(parts[0], sep);
      CountConcat(parts[0], [sep], sep);
      CountConcat(parts[0] + [sep], rest, sep);
      parts[0] + [sep] + rest
  }

  /** Splitting and joining again gives back the original string. */
  lemma {:induction false} JoinSplit(s: string, sep: char)
    ensures Join(Split(s, sep), sep) == s
  {
    if s != [] {
      JoinSplit(s[1..], sep);
      var rest := Split(s[1..], sep);
      if s[0] == sep {
        assert Join([""] + rest, sep) == [sep] + Join(rest, sep);
      } else {
        var r := [[s[0]] + rest[0]] + rest[1..];
        if |rest| == 1 {
          assert r == [[s[0]] + rest[0]];
        } else {
          assert r[1..] == rest[1..];
          assert Join(r, sep) == [s[0]] + rest[0] + [sep] + Join(rest[1..], sep);
        }
        assert s == [s[0]] + s[1..];
      }
    }
  }

  /** A separator splits the string into the pieces of either side. */
  lemma {:induction false} SplitAround(a: string, b: string, sep: char)
    ensures Split(a + [sep] + b, sep) == Split(a, sep) + Split(b, sep)
  {
    var s := a + [sep] + b;
    if a == [] {
      assert s[1..] == b;
    } else {
      assert s[1..] == a[1..] + [sep] + b;
      SplitAround(a[1..], b, sep);
    }
  }

  /** Joining non-empty, separator-free pieces and splitting again gives
      back the pieces: with `JoinSplit`, Split and Join are inverse. */
  lemma {:induction false} SplitJoin(parts: seq<string>, sep: char)
    requires parts != []
    requires forall k :: 0 <= k < |parts| ==> sep !in parts[k]
    ensures Split(Join(parts, sep), sep) == parts
  {
    if |parts| == 1 {
      NoSepSplit(parts[0], sep);
    } else {
      NoSepSplit(parts[0], sep);
      SplitJoin(parts[1..], sep);
      SplitAround(parts[0], Join(parts[1..], sep), sep);
      assert parts == [parts[0]] + parts[1..];
    }
  }

  /** A string without the separator is a single piece. */
  lemma {:induction false} NoSepSplit(s: string, sep: char)
    requires sep !in s
    ensures Split(s, sep) == [s]
  {
    if s != [] {
      assert sep !in s[1..] by {
        forall k | 0 <= k < |s| - 1 ensures s[1..][k] != sep {
          assert s[1..][k] == s[k + 1];
        }
      }
      NoSepSplit(s[1..], sep);
      assert s == [s[0]] + s[1..];
    }
  }

  /** Two separator-free strings around one separator split into just those two. */
  lemma SplitPair(x: string, y: string, sep: char)
    requires sep !in x && sep !in y
    ensures Split(x + [sep] + y, sep) == [x, y]
  {
    NoSepSplit(x, sep);
    NoSepSplit(y, sep);
    SplitAround(x, y, sep);
  }

  /** Length of the longest string of `lines` (0 for none). */
  function MaxLen(lines: seq<string>): (m: nat)
    ensures forall k :: 0 <= k < |lines| ==> |lines[k]| <= m
    ensures m == 0 || exists k :: 0 <= k < |lines| && |lines[k]| == m
  {
    if lines == [] then 0
    else
      var prev := MaxLen(lines[..|lines| - 1]);
      var last := lines[|lines| - 1];
      assert forall k :: 0 <= k < |lines| - 1 ==> lines[..|lines| - 1][k] == lines[k];
      if |last| > prev then |last| else prev
  }

  /** Every character of `s` is a space. */
  predicate AllSpaces(s: string)
  {
    forall k :: 0 <= k < |s| ==> s[k] == ' '
  }

  function TrimLeft(s: string): string
  {
    if s != [] && s[0] == ' ' then TrimLeft(s[1..]) else s
  }

  function TrimRight(s: string): string
  {
    if s != [] && s[|s| - 1] == ' ' then TrimRight(s[..|s| - 1]) else s
  }

  /** `strings.Trim(s, " ")`: drops leading and trailing spaces (only ' ').
      The result is no longer than `s` and neither starts nor ends with a
      space. */
  function Trim(s: string): (r: string)
    ensures |r| <= |s|
    ensures r == [] || (r[0] != ' ' && r[|r| - 1] != ' ')
  {
    TrimLeftShape(s);
    TrimRightShape(TrimLeft(s));
    TrimRight(TrimLeft(s))
  }

  /** What `TrimLeft` keeps is a suffix that does not start with a space. */
  lemma TrimLeftShape(s: string)
    ensures |TrimLeft(s)| <= |s| && TrimLeft(s) == s[|s| - |TrimLeft(s)|..]
    ensures TrimLeft(s) == [] || TrimLeft(s)[0] != ' '
  {
    var i := TrimLeftSpec(s);
  }

  /** What `TrimRight` keeps is a prefix that does not end with a space. */
  lemma TrimRightShape(s: string)
    ensures |TrimRight(s)| <= |s| && TrimRight(s) == s[..|TrimRight(s)|]
    ensures TrimRight(s) == [] || TrimRight(s)[|TrimRight(s)| - 1] != ' '
  {
    var j := TrimRightSpec(s);
  }

  lemma {:induction false} TrimLeftSpec(s: string) returns (i: nat)
    ensures i <= |s| && TrimLeft(s) == s[i..] && AllSpaces(s[..i])
    ensures TrimLeft(s) == [] || TrimLeft(s)[0] != ' '
  {
    if s != [] && s[0] == ' ' {
      var j := TrimLeftSpec(s[1..]);
      i := j + 1;
      assert s[1..][j..] == s[i..];
      forall k | 0 <= k < i ensures s[..i][k] == ' ' {
        if k > 0 { assert s[..i][k] == s[1..][..j][k - 1]; }
      }
    } else {
      i := 0;
    }
  }

  lemma {:induction false} TrimRightSpec(s: string) returns (j: nat)
    ensures j <= |s| && TrimRight(s) == s[..j] && AllSpaces(s[j..])
    ensures TrimRight(s) == [] || TrimRight(s)[|TrimRight(s)| - 1] != ' '
  {
    if s != [] && s[|s| - 1] == ' ' {
      var p := s[..|s| - 1];
      j := TrimRightSpec(p);
      assert p[..j] == s[..j];
      forall k | 0 <= k < |s| - j ensures s[j..][k] == ' ' {
        if k < |p| - j { assert s[j..][k] == p[j..][k]; }
      }
    } else {
      j := |s|;
    }
  }

  /** What `Trim` keeps is the middle of `s`, what it drops is all spaces,
      and what it keeps neither starts nor ends with a space. */
  lemma TrimSpec(s: string) returns (i: nat, j: nat)
    ensures i <= j <= |s| && Trim(s) == s[i..j]
    ensures AllSpaces(s[..i]) && AllSpaces(s[j..])
    ensures Trim(s) == [] || (Trim(s)[0] != ' ' && Trim(s)[|Trim(s)| - 1] != ' ')
  {
    i := TrimLeftSpec(s);
    var t := s[i..];
    var j' := TrimRightSpec(t);
    j := i + j';
    assert t[..j'] == s[i..j];
    forall k | 0 <= k < |s| - j ensures s[j..][k] == ' ' {
      assert s[j..][k] == t[j'..][k];
    }
    if Trim(s) != [] {
      assert Trim(s)[0] == TrimLeft(s)[0];
    }
  }

  lemma {:induction false} TrimLeftNoLead(s: string)
    requires s == [] || s[0] != ' '
    ensures TrimLeft(s) == s
  {
  }

  lemma {:induction false} TrimRightNoTrail(s: string)
    requires s == [] || s[|s| - 1] != ' '
    ensures TrimRight(s) == s
  {
  }

  /** Trimming twice is trimming once. */
  lemma TrimIdempotent(s: string)
    ensures Trim(Trim(s)) == Trim(s)
  {
    var t := Trim(s);
    var i, j := TrimSpec(s);
    TrimLeftNoLead(t);
    TrimRightNoTrail(t);
  }

  /** `pat` occurs in `s` at index `i`. */
  predicate OccursAt(s: string, pat: string, i: nat)
  {
    i + |pat| <= |s| && s[i..i + |pat|] == pat
  }

  /** `strings.Index(s[from..], pat) + from`, or -1: the first occurrence of
      `pat` at or after `from`. */
  function IndexFrom(s: string, pat: string, from: nat): (r: int)
    ensures r == -1 || (from <= r && OccursAt(s, pat, r))
    ensures r == -1 ==> forall k :: from <= k <= |s| ==> !OccursAt(s, pat, k)
    ensures r != -1 ==> forall k :: from <= k < r ==> !OccursAt(s, pat, k)
    decreases |s| - from
  {
    if from + |pat| > |s| then -1
    else if OccursAt(s, pat, from) then from
    else IndexFrom(s, pat, from + 1)
  }

  /** `strings.Replace(s, pat, "", 1)`: removes the first occurrence of
      `pat` (an empty `pat` matches at the start and removes nothing). */
  /** With no occurrence the string is unchanged; otherwise the first
      occurrence, and only it, is cut out, so exactly `pat`'s length goes
      and a leading occurrence is the one removed. */
  function RemoveFirst(s: string, pat: string): (r: string)
    ensures (forall k :: 0 <= k <= |s| ==> !OccursAt(s, pat, k)) ==> r == s
    ensures forall i :: 0 <= i <= |s| && OccursAt(s, pat, i) && (forall k :: 0 <= k < i ==> !OccursAt(s, pat, k)) ==>
      r == s[..i] + s[i + |pat|..]
    ensures (exists k :: 0 <= k <= |s| && OccursAt(s, pat, k)) ==> |r| == |s| - |pat|
    ensures OccursAt(s, pat, 0) ==> r == s[|pat|..]
  {
    var i := IndexFrom(s, pat, 0);
    if i == -1 then s else s[..i] + s[i + |pat|..]
  }

  /** Removing `pat` from a string that starts with it leaves the rest. */
  lemma RemovePrefix(pat: string, rest: string)
    ensures RemoveFirst(pat + rest, pat) == rest
  {
  }
}
