/**
 * String primitives the organizer relies on: ASCII lower-casing, substring
 * search, literal replace-all, splitting and joining, and decimal rendering.
 * Strings are sequences of characters.
 */
module Text {
  type String = seq<char>

  // ---------------------------------------------------------------------------
  // Characters

  predicate IsDigit(c: char) { '0' as int <= c as int <= '9' as int }

  /** ASCII lower-casing of one character; everything else is left alone. */
  function LowerChar(c: char): (d: char)
    ensures 'A' <= c <= 'Z' ==> 'a' <= d <= 'z'
    ensures !('A' <= c <= 'Z') ==> d == c
  {
    if 'A' <= c <= 'Z' then (c as int + 32) as char else c
  }

  /** `toLowerCase`, restricted to ASCII letters. */
  function Lower(s: String): (t: String)
    ensures |t| == |s|
    ensures forall i :: 0 <= i < |s| ==> t[i] == LowerChar(s[i])
  {
    seq(|s|, i requires 0 <= i < |s| => LowerChar(s[i]))
  }

  /** Lower-casing never creates or removes a digit, a '-' or a '_'. */
  lemma LowerKeepsSymbols(c: char)
    ensures IsDigit(LowerChar(c)) <==> IsDigit(c)
    ensures LowerChar(c) == '-' <==> c == '-'
    ensures LowerChar(c) == '_' <==> c == '_'
    ensures LowerChar(c) == '$' <==> c == '$'
    ensures LowerChar(c) == '.' <==> c == '.'
  {
  }

  // ---------------------------------------------------------------------------
  // Substring search

  /** `p` occurs in `s` starting at index `i`. */
  predicate OccursAt(s: String, p: String, i: int)
  {
    0 <= i && i + |p| <= |s| && s[i..i + |p|] == p
  }

  predicate StartsWith(s: String, p: String)
  {
    |p| <= |s| && s[..|p|] == p
  }

  /** `s.includes(p)`: a left-to-right scan for a position where `p` starts. */
  function Contains(s: String, p: String): (b: bool)
    ensures b <==> exists i :: OccursAt(s, p, i)
    decreases |s|
  {
    if StartsWith(s, p) then
      assert OccursAt(s, p, 0);
      true
    else if s == [] then
      assert forall i :: !OccursAt(s, p, i);
      false
    else
      var b := Contains(s[1..], p);
      assert forall i :: OccursAt(s[1..], p, i) ==> OccursAt(s, p, i + 1) by {
        forall i | OccursAt(s[1..], p, i) ensures OccursAt(s, p, i + 1) {
          assert s[1..][i..i + |p|] == s[i + 1..i + 1 + |p|];
        }
      }
      assert forall i :: OccursAt(s, p, i) ==> OccursAt(s[1..], p, i - 1) by {
        forall i | OccursAt(s, p, i) ensures OccursAt(s[1..], p, i - 1) {
          assert i != 0;
          assert s[1..][i - 1..i - 1 + |p|] == s[i..i + |p|];
        }
      }
      b
  }

  // ---------------------------------------------------------------------------
  // Literal replace-all, split and join

  /**
   * `s.replace(new RegExp(escaped(p), 'g'), r)` with `p` escaped so that every
   * character is literal: a left-to-right scan that replaces each
   * non-overlapping occurrence of `p` by `r`.  An empty pattern matches at
   * every position, as the empty regular expression does.
   */
  function ReplaceAll(s: String, p: String, r: String): (t: String)
    decreases |s|
  {
    if p == [] then
      (if s == [] then r else r + [s[0]] + ReplaceAll(s[1..], p, r))
    else if StartsWith(s, p) then
      r + ReplaceAll(s[|p|..], p, r)
    else if s == [] then
      []
    else
      [s[0]] + ReplaceAll(s[1..], p, r)
  }

  /**
   * The pieces of `s` between the non-overlapping occurrences of a non-empty
   * `sep`, found left to right.
   */
  function Split(s: String, sep: String): (pieces: seq<String>)
    requires sep != []
    ensures |pieces| >= 1
    decreases |s|
  {
    if StartsWith(s, sep) then
      [[]] + Split(s[|sep|..], sep)
    else if s == [] then
      [[]]
    else
      var rest := Split(s[1..], sep);
      [[s[0]] + rest[0]] + rest[1..]
  }

  /** `pieces.join(sep)`. */
  function Join(pieces: seq<String>, sep: String): String
  {
    if pieces == [] then []
    else if |pieces| == 1 then pieces[0]
    else pieces[0] + sep + Join(pieces[1..], sep)
  }

  lemma {:induction false} JoinExtendFirst(c: String, q: seq<String>, sep: String)
    requires q != []
    ensures Join([c + q[0]] + q[1..], sep) == c + Join(q, sep)
  {
    var q' := [c + q[0]] + q[1..];
    assert q'[1..] == q[1..];
    if |q| > 1 {
      calc {
        Join(q', sep);
        (c + q[0]) + sep + Join(q[1..], sep);
        c + (q[0] + sep + Join(q[1..], sep));
      }
    }
  }

  /** Splitting at a separator and joining the pieces back with it gives the original text. */
  lemma {:induction false} JoinSplit(s: String, sep: String)
    requires sep != []
    ensures Join(Split(s, sep), sep) == s
    decreases |s|
  {
    if StartsWith(s, sep) {
      JoinSplit(s[|sep|..], sep);
      JoinSplitAtSeparator(s, sep);
    } else if s != [] {
      JoinSplit(s[1..], sep);
      JoinSplitAtChar(s, sep);
    }
  }

  lemma JoinSplitAtSeparator(s: String, sep: String)
    requires sep != [] && StartsWith(s, sep)
    requires Join(Split(s[|sep|..], sep), sep) == s[|sep|..]
    ensures Join(Split(s, sep), sep) == s
  {
    var rest := Split(s[|sep|..], sep);
    JoinCons([], rest, sep);
    SplitAfter(s, sep);
  }

  lemma JoinCons(p: String, rest: seq<String>, sep: String)
    requires rest != []
    ensures Join([p] + rest, sep) == p + sep + Join(rest, sep)
  {
    assert ([p] + rest)[1..] == rest;
  }

  lemma SplitAfter(s: String, sep: String)
    requires sep != [] && StartsWith(s, sep)
    ensures s == [] + sep + s[|sep|..]
  {
    assert s == s[..|sep|] + s[|sep|..];
  }

  lemma JoinSplitAtChar(s: String, sep: String)
    requires sep != [] && !StartsWith(s, sep) && s != []
    requires Join(Split(s[1..], sep), sep) == s[1..]
    ensures Join(Split(s, sep), sep) == s
  {
    JoinExtendFirst([s[0]], Split(s[1..], sep), sep);
    assert s == [s[0]] + s[1..];
  }

  /** Replacing every occurrence is joining the pieces between them with the replacement. */
  lemma {:induction false} ReplaceAllIsJoinOfSplit(s: String, p: String, r: String)
    requires p != []
    ensures ReplaceAll(s, p, r) == Join(Split(s, p), r)
    decreases |s|
  {
    if StartsWith(s, p) {
      var rest := Split(s[|p|..], p);
      ReplaceAllIsJoinOfSplit(s[|p|..], p, r);
      assert Split(s, p) == [[]] + rest;
      assert ([[]] + rest)[1..] == rest;
      assert Join([[]] + rest, r) == [] + r + Join(rest, r);
      assert ReplaceAll(s, p, r) == r + ReplaceAll(s[|p|..], p, r);
    } else if s == [] {
      assert Split(s, p) == [[]];
    } else {
      var rest := Split(s[1..], p);
      ReplaceAllIsJoinOfSplit(s[1..], p, r);
      assert Split(s, p) == [[s[0]] + rest[0]] + rest[1..];
      assert ReplaceAll(s, p, r) == [s[0]] + ReplaceAll(s[1..], p, r);
      JoinExtendFirst([s[0]], rest, r);
    }
  }

  /** The first piece of a split is a prefix of the text. */
  lemma {:induction false} SplitFirstIsPrefix(s: String, sep: String)
    requires sep != []
    ensures StartsWith(s, Split(s, sep)[0])
    decreases |s|
  {
    if StartsWith(s, sep) {
    } else if s == [] {
    } else {
      SplitFirstIsPrefix(s[1..], sep);
      var first := Split(s[1..], sep)[0];
      assert s[..1 + |first|] == [s[0]] + s[1..][..|first|];
    }
  }

  /**
   * No piece left between the replaced occurrences contains the pattern: the
   * scan leaves no occurrence of it behind in the unchanged text.
   */
  lemma {:induction false} SplitPiecesAvoidSeparator(s: String, sep: String)
    requires sep != []
    ensures forall k :: 0 <= k < |Split(s, sep)| ==> !Contains(Split(s, sep)[k], sep)
    decreases |s|
  {
    var pieces := Split(s, sep);
    if StartsWith(s, sep) {
      SplitPiecesAvoidSeparator(s[|sep|..], sep);
      var rest := Split(s[|sep|..], sep);
      assert pieces == [[]] + rest;
      forall k | 0 <= k < |pieces| ensures !Contains(pieces[k], sep) {
        if k > 0 {
          assert pieces[k] == rest[k - 1];
        }
      }
    } else if s == [] {
    } else {
      SplitPiecesAvoidSeparator(s[1..], sep);
      SplitFirstIsPrefix(s[1..], sep);
      var rest := Split(s[1..], sep);
      var first := [s[0]] + rest[0];
      assert pieces == [first] + rest[1..];
      assert !Contains(rest[0], sep);
      assert StartsWith(s, first) by {
        assert s[1..][..|rest[0]|] == rest[0];
        forall j | 0 <= j < |first| ensures s[j] == first[j] {
          if j > 0 { assert s[j] == s[1..][..|rest[0]|][j - 1]; }
        }
      }
      assert first[1..] == rest[0];
      PrefixTransitive(s, first, sep);
      assert !Contains(first, sep);
      forall k | 0 <= k < |pieces| ensures !Contains(pieces[k], sep) {
        if k > 0 {
          assert pieces[k] == rest[k];
        }
      }
    }
  }

  lemma PrefixTransitive(s: String, t: String, u: String)
    requires StartsWith(s, t)
    ensures StartsWith(t, u) ==> StartsWith(s, u)
  {
    if StartsWith(t, u) {
      assert s[..|u|] == t[..|u|];
    }
  }

  /** Text that does not contain the pattern is left unchanged by the replacement. */
  lemma {:induction false} ReplaceAllAbsent(s: String, p: String, r: String)
    requires !Contains(s, p)
    ensures ReplaceAll(s, p, r) == s
    decreases |s|
  {
    if s != [] {
      ReplaceAllAbsent(s[1..], p, r);
    }
  }

  /** When the pattern occurs, the split has found at least one occurrence. */
  lemma {:induction false} SplitFindsOccurrence(s: String, sep: String)
    requires sep != []
    ensures Contains(s, sep) <==> |Split(s, sep)| >= 2
    decreases |s|
  {
    if StartsWith(s, sep) {
      assert OccursAt(s, sep, 0);
    } else if s == [] {
    } else {
      SplitFindsOccurrence(s[1..], sep);
      assert Contains(s, sep) <==> Contains(s[1..], sep) by {
        if Contains(s, sep) {
          var i :| OccursAt(s, sep, i);
          assert i != 0;
          assert s[1..][i - 1..i - 1 + |sep|] == s[i..i + |sep|];
          assert OccursAt(s[1..], sep, i - 1);
        }
        if Contains(s[1..], sep) {
          var i :| OccursAt(s[1..], sep, i);
          assert s[1..][i..i + |sep|] == s[i + 1..i + 1 + |sep|];
          assert OccursAt(s, sep, i + 1);
        }
      }
    }
  }

  /** Replacing a text by itself changes nothing. */
  lemma ReplaceAllBySelf(s: String, p: String)
    requires p != []
    ensures ReplaceAll(s, p, p) == s
  {
    ReplaceAllIsJoinOfSplit(s, p, p);
    JoinSplit(s, p);
  }

  /**
   * Joining with a one-character separator that no piece contains and
   * splitting again gives the pieces back.
   */
  lemma {:induction false} SplitJoin(pieces: seq<String>, sep: String)
    requires |sep| == 1 && pieces != []
    requires forall k :: 0 <= k < |pieces| ==> sep[0] !in pieces[k]
    ensures Split(Join(pieces, sep), sep) == pieces
    decreases |pieces|
  {
    if |pieces| == 1 {
      SplitNoSeparator(pieces[0], [], sep);
      assert Split([], sep) == [[]];
      assert pieces[0] + [] == pieces[0];
      assert Join(pieces, sep) == pieces[0];
    } else {
      SplitJoin(pieces[1..], sep);
      var tail := sep + Join(pieces[1..], sep);
      assert StartsWith(tail, sep);
      assert tail[|sep|..] == Join(pieces[1..], sep);
      assert Split(tail, sep) == [[]] + pieces[1..];
      assert Join(pieces, sep) == pieces[0] + tail;
      SplitNoSeparator(pieces[0], tail, sep);
      assert ([[]] + pieces[1..])[1..] == pieces[1..];
      assert pieces[0] + [] == pieces[0];
      assert pieces == [pieces[0]] + pieces[1..];
    }
  }

  /** A separator-free head is split off as the first piece, intact. */
  lemma {:induction false} SplitNoSeparator(a: String, tail: String, sep: String)
    requires |sep| == 1 && sep[0] !in a
    ensures Split(a + tail, sep) == [a + Split(tail, sep)[0]] + Split(tail, sep)[1..]
    decreases |a|
  {
    if a != [] {
      var s := a + tail;
      var t := Split(tail, sep);
      assert !StartsWith(s, sep) by { assert s[0] == a[0]; }
      assert s[1..] == a[1..] + tail;
      SplitNoSeparator(a[1..], tail, sep);
      var rest := Split(s[1..], sep);
      assert rest == [a[1..] + t[0]] + t[1..];
      assert Split(s, sep) == [[s[0]] + rest[0]] + rest[1..];
      assert rest[1..] == t[1..];
      assert [a[0]] + (a[1..] + t[0]) == a + t[0];
    } else {
      var t := Split(tail, sep);
      assert a + tail == tail;
      assert a + t[0] == t[0];
      assert t == [t[0]] + t[1..];
    }
  }

  // ---------------------------------------------------------------------------
  // Decimal numbers

  function DigitChar(d: nat): (c: char)
    requires d < 10
    ensures IsDigit(c)
  {
    ('0' as int + d) as char
  }

  /** `String(n)` for a non-negative integer: its shortest decimal form. */
  function NatToString(n: nat): (s: String)
    ensures |s| >= 1
    ensures forall i :: 0 <= i < |s| ==> IsDigit(s[i])
    ensures |s| > 1 ==> s[0] != '0'
    decreases n
  {
    if n < 10 then [DigitChar(n)] else NatToString(n / 10) + [DigitChar(n % 10)]
  }

  /** The value of a string of decimal digits. */
  function ParseDecimal(s: String): nat
    requires forall i :: 0 <= i < |s| ==> IsDigit(s[i])
  {
    if s == [] then 0
    else
      assert IsDigit(s[|s| - 1]);
      ParseDecimal(s[..|s| - 1]) * 10 + (s[|s| - 1] as int - '0' as int)
  }

  /** Rendering a number in decimal and reading it back gives the number. */
  lemma {:induction false} ParseNatToString(n: nat)
    ensures ParseDecimal(NatToString(n)) == n
    decreases n
  {
    if n >= 10 {
      ParseNatToString(n / 10);
      var s := NatToString(n);
      assert s[..|s| - 1] == NatToString(n / 10);
    }
  }

  /** `c` repeated `n` times. */
  function Repeat(c: char, n: nat): (s: String)
    ensures |s| == n && forall i :: 0 <= i < n ==> s[i] == c
  {
    seq(n, i => c)
  }

  /** `s.padStart(width, c)` for a one-character filler. */
  function PadStart(s: String, width: nat, c: char): (t: String)
  {
    if |s| >= width then s else Repeat(c, width - |s|) + s
  }

  /** Leading zeros do not change a decimal value. */
  lemma {:induction false} ParseLeadingZeros(z: nat, s: String)
    requires forall i :: 0 <= i < |s| ==> IsDigit(s[i])
    ensures ParseDecimal(Repeat('0', z) + s) == ParseDecimal(s)
    decreases |s|
  {
    var t := Repeat('0', z) + s;
    if s == [] {
      ZerosParseToZero(z);
      assert t == Repeat('0', z);
    } else {
      ParseLeadingZeros(z, s[..|s| - 1]);
      assert t[..|t| - 1] == Repeat('0', z) + s[..|s| - 1];
    }
  }

  lemma {:induction false} ZerosParseToZero(z: nat)
    ensures ParseDecimal(Repeat('0', z)) == 0
  {
    if z > 0 {
      ZerosParseToZero(z - 1);
      assert Repeat('0', z)[..z - 1] == Repeat('0', z - 1);
    }
  }
}
