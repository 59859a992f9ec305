/**
 * The two JavaScript string operations the tool-result presenter uses to
 * count and cut lines: `String.prototype.split` and `Array.prototype.join`,
 * both with a one-character separator.  Strings are sequences of characters;
 * one character stands for one UTF-16 code unit.
 */
module Text {

  /** Number of occurrences of `c` in `s`. */
  function Count(s: string, c: char): nat {
    if |s| == 0 then 0
    else (if s[0] == c then 1 else 0) + Count(s[1..], c)
  }

  /**
   * `s.split(sep)`: the pieces between separators, in order.  There is always
   * at least one piece (`"".split(sep)` is `[""]`) and no piece holds `sep`.
   */
  function Split(s: string, sep: char): (r: seq<string>)
    ensures |r| >= 1
    ensures forall i :: 0 <= i < |r| ==> sep !in r[i]
  {
    if |s| == 0 then [""]
    else
      var rest := Split(s[1..], sep);
      if s[0] == sep then [""] + rest
      else [[s[0]] + rest[0]] + rest[1..]
  }

  /** `parts.join(sep)`: the pieces with `sep` between neighbours; `[].join(sep)` is `""`. */
  function Join(parts: seq<string>, sep: char): string {
    if |parts| == 0 then ""
    else if |parts| == 1 then parts[0]
    else parts[0] + [sep] + Join(parts[1..], sep)
  }

  /** A string split on `sep` has exactly one more piece than it has separators. */
  lemma {:induction false} SplitCount(s: string, sep: char)
    ensures |Split(s, sep)| == Count(s, sep) + 1
  {
    if |s| > 0 {
      SplitCount(s[1..], sep);
    }
  }

  /** Joining the pieces back with the same separator gives the original string. */
  lemma {:induction false} JoinSplit(s: string, sep: char)
    ensures Join(Split(s, sep), sep) == s
  {
    if |s| > 0 {
      var rest := Split(s[1..], sep);
      JoinSplit(s[1..], sep);
      if s[0] == sep {
        assert Join([""] + rest, sep) == "" + [sep] + Join(rest, sep);
      } else if |rest| == 1 {
        assert Join([[s[0]] + rest[0]] + rest[1..], sep) == [s[0]] + rest[0];
      } else {
        var parts := [[s[0]] + rest[0]] + rest[1..];
        assert parts[1..] == rest[1..];
        assert Join(parts, sep) == [s[0]] + rest[0] + [sep] + Join(rest[1..], sep);
      }
      assert s == [s[0]] + s[1..];
    }
  }

  /** Joining two non-empty lists of pieces puts one separator between the two joins. */
  lemma {:induction false} JoinAppend(a: seq<string>, b: seq<string>, sep: char)
    requires |a| > 0 && |b| > 0
    ensures Join(a + b, sep) == Join(a, sep) + [sep] + Join(b, sep)
  {
    if |a| > 1 {
      JoinAppend(a[1..], b, sep);
      assert (a + b)[1..] == a[1..] + b;
    } else {
      assert (a + b)[1..] == b;
    }
  }

  /**
   * For `0 < k < |Split(s, sep)|`, the first `k` pieces joined and followed by
   * the separator that ended the `k`-th piece are a prefix of `s`.
   */
  lemma JoinedPiecesArePrefix(s: string, sep: char, k: nat)
    requires 0 < k < |Split(s, sep)|
    ensures Join(Split(s, sep)[..k], sep) + [sep] <= s
  {
    var pieces := Split(s, sep);
    JoinSplit(s, sep);
    JoinAppend(pieces[..k], pieces[k..], sep);
    assert pieces[..k] + pieces[k..] == pieces;
  }

  /** A string without the separator splits into itself alone. */
  lemma {:induction false} SplitNoSeparator(p: string, sep: char)
    requires sep !in p
    ensures Split(p, sep) == [p]
  {
    if |p| > 0 {
      assert sep !in p[1..] by {
        forall i | 0 <= i < |p[1..]| ensures p[1..][i] != sep {
          assert p[1..][i] == p[i + 1];
        }
      }
      SplitNoSeparator(p[1..], sep);
      assert [p[0]] + p[1..] == p;
    }
  }

  /** A separator-free piece followed by the separator splits off as the first piece. */
  lemma {:induction false} SplitAfterPiece(p: string, sep: char, u: string)
    requires sep !in p
    ensures Split(p + [sep] + u, sep) == [p] + Split(u, sep)
  {
    var s := p + [sep] + u;
    if |p| == 0 {
      assert s[1..] == u;
    } else {
      assert s[1..] == p[1..] + [sep] + u;
      SplitAfterPiece(p[1..], sep, u);
      assert [p[0]] + p[1..] == p;
    }
  }

  /**
   * Joining separator-free pieces, then a separator and a tail `t`, splits back
   * into the pieces followed by the pieces of `t`.
   */
  lemma {:induction false} SplitJoinThen(parts: seq<string>, sep: char, t: string)
    requires |parts| > 0
    requires forall i :: 0 <= i < |parts| ==> sep !in parts[i]
    ensures Split(Join(parts, sep) + [sep] + t, sep) == parts + Split(t, sep)
  {
    if |parts| == 1 {
      SplitAfterPiece(parts[0], sep, t);
    } else {
      var rest := parts[1..];
      assert forall i :: 0 <= i < |rest| ==> rest[i] == parts[i + 1];
      SplitJoinThen(rest, sep, t);
      var tail := Join(rest, sep) + [sep] + t;
      assert Join(parts, sep) == parts[0] + [sep] + Join(rest, sep);
      assert Join(parts, sep) + [sep] + t == parts[0] + [sep] + tail;
      SplitAfterPiece(parts[0], sep, tail);
      assert parts == [parts[0]] + rest;
    }
  }

  /** The other round trip: separator-free pieces, joined and split again, come back. */
  lemma {:induction false} SplitJoin(parts: seq<string>, sep: char)
    requires |parts| > 0
    requires forall i :: 0 <= i < |parts| ==> sep !in parts[i]
    ensures Split(Join(parts, sep), sep) == parts
  {
    if |parts| == 1 {
      SplitNoSeparator(parts[0], sep);
    } else {
      var rest := parts[1..];
      assert forall i :: 0 <= i < |rest| ==> rest[i] == parts[i + 1];
      SplitJoin(rest, sep);
      SplitAfterPiece(parts[0], sep, Join(rest, sep));
      assert parts == [parts[0]] + rest;
    }
  }
}
