/**
 * The parts of Python's `str` that the dashboard's rules rely on: `strip`,
 * `startswith`/`endswith`, the `in` substring test, `split` with an explicit
 * separator, `join`, `isdigit` and the decimal rendering of an integer.
 */
module Strings {

  /** The characters Python's `str.isspace()` accepts, which `strip()` removes. */
  predicate IsSpace(c: char) {
    || ('\t' <= c <= '\r')
    || ('\U{1c}' <= c <= ' ')
    || c == '\U{85}' || c == '\U{a0}' || c == '\U{1680}'
    || ('\U{2000}' <= c <= '\U{200a}')
    || c == '\U{2028}' || c == '\U{2029}' || c == '\U{202f}' || c == '\U{205f}'
    || c == '\U{3000}'
  }

  predicate AllSpace(s: string) {
    forall i | 0 <= i < |s| :: IsSpace(s[i])
  }

  /** `s.lstrip()`: drop the leading whitespace. */
  function LStrip(s: string): (r: string)
    ensures |r| <= |s| && r == s[|s| - |r|..]
    ensures AllSpace(s[..|s| - |r|])
    ensures r == [] || !IsSpace(r[0])
  {
    if s != [] && IsSpace(s[0]) then
      var r := LStrip(s[1..]);
      LStripStep(s, r);
      r
    else s
  }

  lemma LStripStep(s: string, r: string)
    requires s != [] && IsSpace(s[0])
    requires |r| <= |s| - 1 && r == s[1..][|s| - 1 - |r|..]
    requires AllSpace(s[1..][..|s| - 1 - |r|])
    ensures r == s[|s| - |r|..] && AllSpace(s[..|s| - |r|])
  {
    var tail := s[1..];
    assert s[|s| - |r|..] == tail[|tail| - |r|..];
    var dropped := s[..|s| - |r|];
    forall i | 0 <= i < |dropped| ensures IsSpace(dropped[i]) {
      if i > 0 {
        assert dropped[i] == tail[..|tail| - |r|][i - 1];
      }
    }
  }

  /** `s.rstrip()`: drop the trailing whitespace. */
  function RStrip(s: string): (r: string)
    ensures |r| <= |s| && r == s[..|r|]
    ensures AllSpace(s[|r|..])
    ensures r == [] || !IsSpace(r[|r| - 1])
  {
    if s != [] && IsSpace(s[|s| - 1]) then
      var init := s[..|s| - 1];
      var r := RStrip(init);
      assert r == s[..|r|] by { assert init[..|r|] == s[..|r|]; }
      assert s[|r|..] == init[|r|..] + [s[|s| - 1]];
      r
    else s
  }

  /** `s.strip()`. */
  function Strip(s: string): (r: string)
    ensures |r| <= |s|
    ensures r == [] <==> AllSpace(s)
    ensures r != [] ==> !IsSpace(r[0]) && !IsSpace(r[|r| - 1])
  {
    var l := LStrip(s);
    assert l != [] ==> !AllSpace(s) by {
      if l != [] { assert l[0] == s[|s| - |l|]; }
    }
    var r := RStrip(l);
    assert r == [] ==> AllSpace(s) by {
      if r == [] {
        assert l == [];
        assert s[..|s|] == s;
      }
    }
    assert r != [] ==> r[0] == l[0];
    r
  }

  /**
   * `str(s).strip() == ''`: the test the dashboard uses for a blank cell,
   * which holds exactly when every character is whitespace (see `Strip`).
   */
  predicate IsBlank(s: string) {
    AllSpace(s)
  }

  lemma {:induction false} LStripSpacePrefix(a: string, t: string)
    requires AllSpace(a)
    ensures LStrip(a + t) == LStrip(t)
  {
    if a != [] {
      assert (a + t)[1..] == a[1..] + t;
      LStripSpacePrefix(a[1..], t);
    } else {
      assert a + t == t;
    }
  }

  lemma {:induction false} LStripAppend(s: string, b: string)
    requires !AllSpace(s)
    ensures LStrip(s + b) == LStrip(s) + b
  {
    assert s != [];
    if IsSpace(s[0]) {
      assert (s + b)[1..] == s[1..] + b;
      assert !AllSpace(s[1..]) by {
        var i :| 0 <= i < |s| && !IsSpace(s[i]);
        assert i > 0 && s[1..][i - 1] == s[i];
      }
      LStripAppend(s[1..], b);
    }
  }

  lemma {:induction false} RStripSpaceSuffix(t: string, b: string)
    requires AllSpace(b)
    ensures RStrip(t + b) == RStrip(t)
  {
    if b != [] {
      assert (t + b)[..|t + b| - 1] == t + b[..|b| - 1];
      RStripSpaceSuffix(t, b[..|b| - 1]);
    } else {
      assert t + b == t;
    }
  }

  /** Whitespace around a value never changes what `strip()` returns. */
  lemma StripPadded(a: string, s: string, b: string)
    requires AllSpace(a) && AllSpace(b)
    ensures Strip(a + s + b) == Strip(s)
  {
    assert a + s + b == a + (s + b);
    LStripSpacePrefix(a, s + b);
    if AllSpace(s) {
      assert AllSpace(s + b) by {
        forall i | 0 <= i < |s + b| ensures IsSpace((s + b)[i]) {
          if i < |s| { assert (s + b)[i] == s[i]; } else { assert (s + b)[i] == b[i - |s|]; }
        }
      }
    } else {
      LStripAppend(s, b);
      RStripSpaceSuffix(LStrip(s), b);
    }
  }

  /** A value without surrounding whitespace is its own `strip()`. */
  lemma StripUnpadded(s: string)
    requires s == [] || (!IsSpace(s[0]) && !IsSpace(s[|s| - 1]))
    ensures Strip(s) == s
  {
  }

  /** Stripping a stripped string changes nothing. */
  lemma StripIdempotent(s: string)
    ensures Strip(Strip(s)) == Strip(s)
  {
    StripUnpadded(Strip(s));
  }

  /** `.str.strip()` on every piece. */
  function StripAll(pieces: seq<string>): (r: seq<string>)
    ensures |r| == |pieces|
    ensures forall i | 0 <= i < |r| :: r[i] == Strip(pieces[i])
  {
    seq(|pieces|, i requires 0 <= i < |pieces| => Strip(pieces[i]))
  }

  /** Every stripped piece is already stripped. */
  lemma StripAllStripped(pieces: seq<string>)
    ensures forall i | 0 <= i < |pieces| :: Strip(StripAll(pieces)[i]) == StripAll(pieces)[i]
  {
    forall i | 0 <= i < |pieces| ensures Strip(StripAll(pieces)[i]) == StripAll(pieces)[i] {
      StripIdempotent(pieces[i]);
    }
  }

  /** Stripping a list works piece by piece: the head strips to its own strip. */
  lemma StripAllCons(a: string, tail: seq<string>)
    ensures StripAll([a] + tail) == [Strip(a)] + StripAll(tail)
  {
    var p := [a] + tail;
    assert StripAll(p) == seq(|p|, i requires 0 <= i < |p| => Strip(p[i]));
    assert StripAll(tail) == seq(|tail|, i requires 0 <= i < |tail| => Strip(tail[i]));
  }

  predicate StartsWith(s: string, prefix: string) {
    |prefix| <= |s| && s[..|prefix|] == prefix
  }

  predicate EndsWith(s: string, suffix: string) {
    |suffix| <= |s| && s[|s| - |suffix|..] == suffix
  }

  predicate OccursAt(s: string, sub: string, i: int) {
    0 <= i && i + |sub| <= |s| && s[i..i + |sub|] == sub
  }

  /** Python's `sub in s`; a regular expression made of one `re.escape`d literal matches the same way. */
  predicate Contains(s: string, sub: string) {
    exists i | 0 <= i <= |s| - |sub| :: OccursAt(s, sub, i)
  }

  /** `sep.join(pieces)`. */
  function Join(pieces: seq<string>, sep: string): string {
    if |pieces| == 0 then []
    else if |pieces| == 1 then pieces[0]
    else pieces[0] + sep + Join(pieces[1..], sep)
  }

  /** Joining two non-empty lists of pieces: the first list's text, one separator, the second's. */
  lemma {:induction false} JoinConcat(a: seq<string>, b: seq<string>, sep: string)
    requires a != [] && b != []
    ensures Join(a + b, sep) == Join(a, sep) + sep + Join(b, sep)
  {
    if |a| == 1 {
      assert (a + b)[0] == a[0] && (a + b)[1..] == b;
    } else {
      assert (a + b)[0] == a[0] && (a + b)[1..] == a[1..] + b;
      JoinConcat(a[1..], b, sep);
    }
  }

  /** The character `c` does not occur in `s`. */
  predicate Lacks(s: string, c: char) {
    forall i | 0 <= i < |s| :: s[i] != c
  }

  lemma LacksConcat(a: string, b: string, c: char)
    requires Lacks(a, c) && Lacks(b, c)
    ensures Lacks(a + b, c)
  {
    forall i | 0 <= i < |a + b| ensures (a + b)[i] != c {
      if i < |a| {
        assert (a + b)[i] == a[i];
      } else {
        assert (a + b)[i] == b[i - |a|];
      }
    }
  }

  /** A string that lacks the first character of `sub` cannot contain `sub`. */
  lemma LacksNotContains(s: string, sub: string)
    requires sub != [] && Lacks(s, sub[0])
    ensures !Contains(s, sub)
  {
    forall i | 0 <= i <= |s| - |sub| ensures !OccursAt(s, sub, i) {
      assert s[i..i + |sub|][0] != sub[0];
    }
  }

  /** Pieces and separator without `c` give a joined string without `c`. */
  lemma {:induction false} JoinLacks(pieces: seq<string>, sep: string, c: char)
    requires Lacks(sep, c)
    requires forall p | p in pieces :: Lacks(p, c)
    ensures Lacks(Join(pieces, sep), c)
  {
    if |pieces| > 1 {
      assert pieces[0] in pieces;
      JoinLacks(pieces[1..], sep, c);
    }
  }

  /**
   * `s.split(sep)` for a non-empty separator: cut at every occurrence found
   * scanning left to right, so there is always at least one piece.
   */
  function Split(s: string, sep: string): (r: seq<string>)
    requires sep != []
    ensures |r| >= 1
    decreases |s|
  {
    if |s| < |sep| then [s]
    else if s[..|sep|] == sep then [[]] + Split(s[|sep|..], sep)
    else
      var rest := Split(s[1..], sep);
      [[s[0]] + rest[0]] + rest[1..]
  }

  lemma {:induction false} JoinSplit(s: string, sep: string)
    requires sep != []
    ensures Join(Split(s, sep), sep) == s
    decreases |s|
  {
    if |s| < |sep| {
    } else if s[..|sep|] == sep {
      JoinSplit(s[|sep|..], sep);
      var tail := Split(s[|sep|..], sep);
      JoinHead([[]] + tail, sep);
      assert ([[]] + tail)[1..] == tail;
      assert s == sep + s[|sep|..];
    } else {
      var rest := Split(s[1..], sep);
      JoinSplit(s[1..], sep);
      var r := [[s[0]] + rest[0]] + rest[1..];
      JoinHead(r, sep);
      JoinHead(rest, sep);
      assert r[1..] == rest[1..];
      assert s == [s[0]] + s[1..];
    }
  }

  /** A joined list is its first piece, then the separator and the rest when there is more. */
  lemma JoinHead(pieces: seq<string>, sep: string)
    requires pieces != []
    ensures Join(pieces, sep) == pieces[0] + (if |pieces| == 1 then [] else sep + Join(pieces[1..], sep))
  {
  }

  lemma {:induction false} FirstPieceIsPrefix(pieces: seq<string>, sep: string)
    requires |pieces| >= 1
    ensures StartsWith(Join(pieces, sep), pieces[0])
  {
    if |pieces| > 1 {
      assert Join(pieces, sep) == pieces[0] + (sep + Join(pieces[1..], sep));
    }
  }

  /** No piece `split` returns contains the separator. */
  lemma {:induction false} SplitPiecesFree(s: string, sep: string)
    requires sep != []
    ensures forall p | p in Split(s, sep) :: !Contains(p, sep)
    decreases |s|
  {
    if |s| < |sep| {
    } else if s[..|sep|] == sep {
      SplitPiecesFree(s[|sep|..], sep);
      assert !Contains([], sep);
    } else {
      var rest := Split(s[1..], sep);
      SplitPiecesFree(s[1..], sep);
      assert rest[0] in rest;
      JoinSplit(s[1..], sep);
      FirstPieceIsPrefix(rest, sep);
      GrowPieceFree(s, rest[0], sep);
      var head := [s[0]] + rest[0];
      forall p | p in Split(s, sep) ensures !Contains(p, sep) {
        if p != head { assert p in rest[1..]; }
      }
    }
  }

  /** A prefix of `s[1..]` free of `sep`, grown by `s[0]`, stays free when `s` does not start with `sep`. */
  lemma GrowPieceFree(s: string, piece: string, sep: string)
    requires sep != [] && |s| >= |sep| && s[..|sep|] != sep
    requires StartsWith(s[1..], piece) && !Contains(piece, sep)
    ensures !Contains([s[0]] + piece, sep)
  {
    var head := [s[0]] + piece;
    forall i | 0 <= i <= |head| - |sep| ensures !OccursAt(head, sep, i) {
      if i == 0 {
        assert head == s[..|head|];
        assert head[..|sep|] == s[..|sep|];
      } else {
        assert head[i..i + |sep|] == piece[i - 1..i - 1 + |sep|];
        assert !OccursAt(piece, sep, i - 1);
      }
    }
  }

  /** `sep` never overlaps itself, as ", " and "," do not. */
  predicate Unbordered(sep: string) {
    forall k | 0 < k < |sep| :: sep[k..] != sep[..|sep| - k]
  }

  lemma {:induction false} SplitSingle(p: string, sep: string)
    requires sep != [] && !Contains(p, sep)
    ensures Split(p, sep) == [p]
    decreases |p|
  {
    if |p| >= |sep| {
      assert !OccursAt(p, sep, 0);
      NotContainsTail(p, sep);
      SplitSingle(p[1..], sep);
      assert [p[0]] + p[1..] == p;
    }
  }

  /** Dropping the first character keeps a string free of `sep`. */
  lemma NotContainsTail(p: string, sep: string)
    requires p != [] && !Contains(p, sep)
    ensures !Contains(p[1..], sep)
  {
    forall i | 0 <= i <= |p[1..]| - |sep| ensures !OccursAt(p[1..], sep, i) {
      assert p[1..][i..i + |sep|] == p[i + 1..i + 1 + |sep|];
      assert !OccursAt(p, sep, i + 1);
    }
  }

  /** A non-empty text free of a self-unbordered `sep` does not start a match of `sep`. */
  lemma NoSeparatorAtStart(p: string, sep: string, rest: string)
    requires sep != [] && Unbordered(sep) && !Contains(p, sep) && p != []
    requires |p + sep + rest| >= |sep|
    ensures (p + sep + rest)[..|sep|] != sep
  {
    var s := p + sep + rest;
    if |p| >= |sep| {
      assert s[..|sep|] == p[..|sep|];
      assert !OccursAt(p, sep, 0);
    } else {
      var k := |p|;
      assert s[k..k + |sep|] == sep;
      assert s[..|sep|][k..] == sep[..|sep| - k];
      assert sep[k..] != sep[..|sep| - k];
    }
  }

  lemma {:induction false} SplitAtFirst(p: string, sep: string, rest: string)
    requires sep != [] && Unbordered(sep) && !Contains(p, sep)
    ensures Split(p + sep + rest, sep) == [p] + Split(rest, sep)
    decreases |p|
  {
    var s := p + sep + rest;
    if p == [] {
      assert s == sep + rest && s[..|sep|] == sep && s[|sep|..] == rest;
    } else {
      NoSeparatorAtStart(p, sep, rest);
      NotContainsTail(p, sep);
      assert s[1..] == p[1..] + sep + rest;
      SplitAtFirst(p[1..], sep, rest);
      assert [p[0]] + p[1..] == p;
    }
  }

  /** With a separator that cannot overlap itself, `split` undoes `join`. */
  lemma {:induction false} SplitJoin(pieces: seq<string>, sep: string)
    requires sep != [] && Unbordered(sep) && |pieces| >= 1
    requires forall p | p in pieces :: !Contains(p, sep)
    ensures Split(Join(pieces, sep), sep) == pieces
  {
    if |pieces| == 1 {
      SplitSingle(pieces[0], sep);
    } else {
      assert pieces[0] in pieces;
      SplitJoin(pieces[1..], sep);
      SplitAtFirst(pieces[0], sep, Join(pieces[1..], sep));
      assert [pieces[0]] + pieces[1..] == pieces;
    }
  }

  predicate IsDigit(c: char) {
    '0' <= c <= '9'
  }

  /** `s.isdigit()` on ASCII digits: at least one character, all of them digits. */
  predicate IsDigits(s: string) {
    |s| > 0 && forall i | 0 <= i < |s| :: IsDigit(s[i])
  }

  /** The value a string of decimal digits denotes (`int(s)`, `float(s)`). */
  function DigitsValue(s: string): nat
    requires forall i | 0 <= i < |s| :: IsDigit(s[i])
  {
    if s == [] then 0
    else
      assert IsDigit(s[|s| - 1]);
      10 * DigitsValue(s[..|s| - 1]) + (s[|s| - 1] as int - '0' as int)
  }

  function DigitChar(d: nat): (c: char)
    requires d < 10
    ensures IsDigit(c) && c as int - '0' as int == d
  {
    ('0' as int + d) as char
  }

  /** `str(n)` for a non-negative integer: shortest decimal form. */
  function NatToString(n: nat): (r: string)
    ensures IsDigits(r)
    ensures r[0] == '0' ==> n == 0
  {
    if n < 10 then [DigitChar(n)] else NatToString(n / 10) + [DigitChar(n % 10)]
  }

  /** `str(i)` for any integer. */
  function IntToString(i: int): string {
    if i < 0 then "-" + NatToString(-i) else NatToString(i)
  }

  lemma {:induction false} NatToStringValue(n: nat)
    ensures DigitsValue(NatToString(n)) == n
  {
    if n >= 10 {
      var s := NatToString(n);
      NatToStringValue(n / 10);
      assert s[..|s| - 1] == NatToString(n / 10);
    }
  }
}
