/** The two JavaScript string built-ins the parser relies on:
    `String.prototype.split` with a one-character separator, and
    `String.prototype.includes`. */
module Text {

  /** `s.split(sep)`: k occurrences of `sep` give k + 1 pieces, empty pieces
      included, so the result is never empty. */
  function Split(s: string, sep: char): (r: seq<string>)
    ensures |r| >= 1
    ensures forall i :: 0 <= i < |r| ==> sep !in r[i]
    decreases |s|
  {
    if s == [] then [[]]
    else
      var rest := Split(s[1..], sep);
      if s[0] == sep then [[]] + rest
      else [[s[0]] + rest[0]] + rest[1..]
  }

  /** `pieces.join(sep)`, the inverse of Split. */
  function Join(pieces: seq<string>, sep: char): string
    decreases |pieces|
  {
    if |pieces| == 0 then []
    else if |pieces| == 1 then pieces[0]
    else pieces[0] + [sep] + Join(pieces[1..], sep)
  }

  /** Joining the pieces of a split gives back the original text. */
  lemma {:induction false} JoinSplit(s: string, sep: char)
    ensures Join(Split(s, sep), sep) == s
    decreases |s|
  {
    if s != [] {
      var rest := Split(s[1..], sep);
      JoinSplit(s[1..], sep);
      if s[0] == sep {
        assert Split(s, sep) == [[]] + rest;
        assert ([[]] + rest)[1..] == rest;
      } else {
        var r := Split(s, sep);
        assert r == [[s[0]] + rest[0]] + rest[1..];
        if |rest| == 1 {
          assert Join(r, sep) == [s[0]] + rest[0];
        } else {
          assert r[1..] == rest[1..];
          assert Join(r, sep) == [s[0]] + rest[0] + [sep] + Join(rest[1..], sep);
        }
        assert [s[0]] + s[1..] == s;
      }
    }
  }

  /** A text without the separator splits into itself alone. */
  lemma {:induction false} SplitNoSeparator(s: string, sep: char)
    requires sep !in s
    ensures Split(s, sep) == [s]
    decreases |s|
  {
    if s != [] {
      SplitNoSeparator(s[1..], sep);
      assert [s[0]] + s[1..] == s;
    }
  }

  /** Splitting at the first separator: a piece free of the separator,
      followed by the pieces of the rest. */
  lemma {:induction false} SplitAtFirst(a: string, b: string, sep: char)
    requires sep !in a
    ensures Split(a + [sep] + b, sep) == [a] + Split(b, sep)
    decreases |a|
  {
    if a == [] {
      assert a + [sep] + b == [sep] + b;
      assert ([sep] + b)[1..] == b;
    } else {
      var s := a + [sep] + b;
      assert s[1..] == a[1..] + [sep] + b;
      SplitAtFirst(a[1..], b, sep);
      assert [a[0]] + a[1..] == a;
    }
  }

  /** Splitting the join of separator-free pieces gives the pieces back. */
  lemma {:induction false} SplitJoin(pieces: seq<string>, sep: char)
    requires |pieces| >= 1
    requires forall i :: 0 <= i < |pieces| ==> sep !in pieces[i]
    ensures Split(Join(pieces, sep), sep) == pieces
    decreases |pieces|
  {
    if |pieces| == 1 {
      SplitNoSeparator(pieces[0], sep);
    } else {
      SplitJoin(pieces[1..], sep);
      SplitAtFirst(pieces[0], Join(pieces[1..], sep), sep);
      assert [pieces[0]] + pieces[1..] == pieces;
    }
  }

  /** Appending separator-free text changes only the last piece: every piece
      before it is the same, and their number is the same. */
  lemma {:induction false} SplitExtendLast(t: string, b: string, sep: char)
    requires sep !in b
    ensures |Split(t + b, sep)| == |Split(t, sep)|
    ensures Split(t + b, sep)[..|Split(t, sep)| - 1] == Split(t, sep)[..|Split(t, sep)| - 1]
    ensures Split(t + b, sep)[|Split(t, sep)| - 1] == Split(t, sep)[|Split(t, sep)| - 1] + b
    decreases |t|
  {
    if t == [] {
      assert t + b == b;
      SplitNoSeparator(b, sep);
    } else {
      var r, rb := Split(t, sep), Split(t + b, sep);
      assert (t + b)[1..] == t[1..] + b;
      assert (t + b)[0] == t[0];
      SplitExtendLast(t[1..], b, sep);
      var rest, restb := Split(t[1..], sep), Split(t[1..] + b, sep);
      if t[0] == sep {
        assert r == [[]] + rest && rb == [[]] + restb;
        assert r[..|r| - 1] == [[]] + rest[..|rest| - 1];
        assert rb[..|rb| - 1] == [[]] + restb[..|restb| - 1];
      } else {
        assert r == [[t[0]] + rest[0]] + rest[1..];
        assert rb == [[t[0]] + restb[0]] + restb[1..];
        if |rest| == 1 {
          assert rb[0] == [t[0]] + rest[0] + b;
        } else {
          assert restb[0] == rest[0];
          assert r[..|r| - 1] == [r[0]] + rest[1..|rest| - 1];
          assert rb[..|rb| - 1] == [rb[0]] + restb[1..|restb| - 1];
          assert restb[1..|restb| - 1] == restb[..|restb| - 1][1..];
          assert rest[1..|rest| - 1] == rest[..|rest| - 1][1..];
        }
      }
    }
  }

  /** `pat` occurs in `s` starting at index `i`. */
  ghost predicate OccursAt(s: string, pat: string, i: nat)
  {
    i + |pat| <= |s| && s[i..i + |pat|] == pat
  }

  /** `s.includes(pat)`: compare each window of `s` with `pat`, left to right. */
  function Includes(s: string, pat: string): (r: bool)
    ensures r ==> |pat| <= |s|
    ensures pat == [] ==> r
    decreases |s|
  {
    if |pat| > |s| then false
    else if s[..|pat|] == pat then true
    else Includes(s[1..], pat)
  }

  /** Includes holds exactly when `pat` occurs somewhere in `s`. */
  lemma {:induction false} IncludesOccurs(s: string, pat: string)
    ensures Includes(s, pat) <==> exists i: nat :: OccursAt(s, pat, i)
    decreases |s|
  {
    if |pat| > |s| {
    } else if s[..|pat|] == pat {
      assert OccursAt(s, pat, 0);
    } else {
      IncludesOccurs(s[1..], pat);
      if Includes(s[1..], pat) {
        var i: nat :| OccursAt(s[1..], pat, i);
        assert s[1..][i..i + |pat|] == s[i + 1..i + 1 + |pat|];
        assert OccursAt(s, pat, i + 1);
      } else {
        forall i: nat | OccursAt(s, pat, i) ensures false {
          assert i != 0;
          assert s[1..][i - 1..i - 1 + |pat|] == s[i..i + |pat|];
          assert OccursAt(s[1..], pat, i - 1);
        }
      }
    }
  }
}
