/**
 * The handful of Go standard-library operations the xerr package relies on:
 * strings.Split with a one-character separator, strings.SplitN(s, sep, 2),
 * strings.TrimSpace, strings.HasPrefix, strings.TrimPrefix, strings.Contains,
 * slices.Contains, the decimal verbs %d and %4d of fmt, and the byte length
 * that Go's len gives for a string.
 */
module GoStd {

  // ---------------------------------------------------------------------
  // slices.Contains
  // ---------------------------------------------------------------------

  /** Linear search, as slices.Contains does it. */
  function Contains<T(==)>(s: seq<T>, x: T): (r: bool)
    ensures r <==> x in s
  {
    if |s| == 0 then false
    else if s[0] == x then true
    else Contains(s[1..], x)
  }

  // ---------------------------------------------------------------------
  // strings.TrimSpace (ASCII white space only)
  // ---------------------------------------------------------------------

  predicate IsSpace(c: char) {
    c == ' ' || c == '\t' || c == '\n' || c == '\r' || c == '\U{000B}' || c == '\U{000C}'
  }

  predicate AllSpace(s: string) {
    forall i :: 0 <= i < |s| ==> IsSpace(s[i])
  }

  /** Drop leading white space. */
  function TrimLeft(s: string): string {
    if |s| > 0 && IsSpace(s[0]) then TrimLeft(s[1..]) else s
  }

  /** Drop trailing white space. */
  function TrimRight(s: string): string {
    if |s| > 0 && IsSpace(s[|s| - 1]) then TrimRight(s[..|s| - 1]) else s
  }

  /** TrimLeft keeps a suffix, removes only white space, and stops at the
      first character that is not white space. */
  lemma {:induction false} TrimLeftSpec(s: string)
    ensures var r := TrimLeft(s);
      && |r| <= |s| && r == s[|s| - |r|..]
      && AllSpace(s[..|s| - |r|])
      && (r != [] ==> !IsSpace(r[0]))
  {
    if |s| > 0 && IsSpace(s[0]) {
      TrimLeftSpec(s[1..]);
      var r := TrimLeft(s[1..]);
      assert s[1..][..|s| - 1 - |r|] == s[1..|s| - |r|];
    }
  }

  /** TrimRight keeps a prefix, removes only white space, and stops at the
      last character that is not white space. */
  lemma {:induction false} TrimRightSpec(s: string)
    ensures var r := TrimRight(s);
      && |r| <= |s| && r == s[..|r|]
      && AllSpace(s[|r|..])
      && (r != [] ==> !IsSpace(r[|r| - 1]))
  {
    if |s| > 0 && IsSpace(s[|s| - 1]) {
      TrimRightSpec(s[..|s| - 1]);
      var r := TrimRight(s[..|s| - 1]);
      assert s[|r|..] == s[..|s| - 1][|r|..] + [s[|s| - 1]];
    }
  }

  /** strings.TrimSpace: drop leading and trailing white space. */
  function TrimSpace(s: string): string {
    TrimRight(TrimLeft(s))
  }

  /** A string trims to nothing exactly when it is all white space. */
  lemma TrimSpaceEmptyIff(s: string)
    ensures TrimSpace(s) == "" <==> AllSpace(s)
  {
    var l := TrimLeft(s);
    TrimLeftSpec(s);
    TrimRightSpec(l);
    if l != [] {
      assert l[0] == s[|s| - |l|];
      assert l[|TrimRight(l)|..] == l || TrimRight(l) != "";
    } else {
      assert s[..|s|] == s;
    }
  }

  /** Trimming text that is white space, then a word without white space at its
      ends, then white space again, gives back the word. */
  lemma {:induction false} TrimSpacePadded(a: string, w: string, b: string)
    requires AllSpace(a) && AllSpace(b)
    requires w != [] && !IsSpace(w[0]) && !IsSpace(w[|w| - 1])
    ensures TrimSpace(a + w + b) == w
  {
    TrimLeftSkipsSpace(a, w + b);
    assert a + w + b == a + (w + b);
    TrimRightSkipsSpace(w, b);
  }

  lemma {:induction false} TrimLeftSkipsSpace(a: string, t: string)
    requires AllSpace(a)
    requires t != [] && !IsSpace(t[0])
    ensures TrimLeft(a + t) == t
  {
    if a != [] {
      assert (a + t)[1..] == a[1..] + t;
      TrimLeftSkipsSpace(a[1..], t);
    }
  }

  lemma {:induction false} TrimRightSkipsSpace(t: string, b: string)
    requires AllSpace(b)
    requires t != [] && !IsSpace(t[|t| - 1])
    ensures TrimRight(t + b) == t
  {
    if b != [] {
      assert (t + b)[..|t + b| - 1] == t + b[..|b| - 1];
      TrimRightSkipsSpace(t, b[..|b| - 1]);
    } else {
      assert t + b == t;
    }
  }

  // ---------------------------------------------------------------------
  // strings.HasPrefix, strings.TrimPrefix
  // ---------------------------------------------------------------------

  predicate HasPrefix(s: string, p: string) {
    |p| <= |s| && s[..|p|] == p
  }

  function TrimPrefix(s: string, p: string): (r: string)
    ensures HasPrefix(s, p) ==> p + r == s
    ensures !HasPrefix(s, p) ==> r == s
  {
    if HasPrefix(s, p) then s[|p|..] else s
  }

  // ---------------------------------------------------------------------
  // strings.Contains
  // ---------------------------------------------------------------------

  /** `sub` occurs in `s` at offset `i`. */
  predicate OccursAt(s: string, sub: string, i: nat) {
    i + |sub| <= |s| && s[i..i + |sub|] == sub
  }

  /** strings.Contains: a left-to-right scan for `sub`. */
  function ContainsStr(s: string, sub: string): (r: bool)
    ensures r <==> exists i: nat :: OccursAt(s, sub, i)
  {
    if |sub| > |s| then false
    else if s[..|sub|] == sub then assert OccursAt(s, sub, 0); true
    else
      var r := ContainsStr(s[1..], sub);
      assert !OccursAt(s, sub, 0);
      assert forall i: nat :: OccursAt(s[1..], sub, i) <==> OccursAt(s, sub, i + 1) by {
        forall i: nat ensures OccursAt(s[1..], sub, i) <==> OccursAt(s, sub, i + 1) {
          if i + 1 + |sub| <= |s| { assert s[1..][i..i + |sub|] == s[i + 1..i + 1 + |sub|]; }
        }
      }
      assert forall i: nat :: OccursAt(s, sub, i) ==> OccursAt(s[1..], sub, i - 1);
      r
  }

  // ---------------------------------------------------------------------
  // strings.Index with a one-character separator, and strings.SplitN(s, sep, 2)
  // ---------------------------------------------------------------------

  /** Index of the first `c` in `s`, or -1 when there is none. */
  function IndexOf(s: string, c: char): (r: int)
    ensures -1 <= r < |s|
    ensures r == -1 <==> c !in s
    ensures r >= 0 ==> s[r] == c && forall j :: 0 <= j < r ==> s[j] != c
  {
    if |s| == 0 then -1
    else if s[0] == c then 0
    else
      var k := IndexOf(s[1..], c);
      if k < 0 then -1 else k + 1
  }

  /** strings.SplitN(s, string(c), 2): the text before the first `c` and the
      text after it, or `s` alone when `c` does not occur. */
  function SplitOnce(s: string, c: char): seq<string> {
    var k := IndexOf(s, c);
    if k < 0 then [s] else [s[..k], s[k + 1..]]
  }

  /** Two parts exactly when `c` occurs: the text before its first
      occurrence, which holds no `c`, and the text after it; otherwise `s`
      itself. */
  lemma SplitOnceSpec(s: string, c: char)
    ensures var parts := SplitOnce(s, c);
      && (|parts| == 2 <==> c in s)
      && (|parts| == 1 <==> c !in s)
      && (|parts| == 1 ==> parts[0] == s)
      && (|parts| == 2 ==> s == parts[0] + [c] + parts[1] && c !in parts[0])
      && (|parts| == 2 ==> parts[0] == s[..IndexOf(s, c)] && parts[1] == s[IndexOf(s, c) + 1..])
  {
    var k := IndexOf(s, c);
    if k >= 0 {
      assert s == s[..k] + [c] + s[k + 1..];
    }
  }

  /** The separator is found at the first place it occurs. */
  lemma SplitOnceAt(a: string, c: char, b: string)
    requires c !in a
    ensures SplitOnce(a + [c] + b, c) == [a, b]
  {
    var s := a + [c] + b;
    assert s[|a|] == c;
    assert forall j :: 0 <= j < |a| ==> s[j] == a[j];
    assert IndexOf(s, c) == |a|;
    assert s[..|a|] == a;
    assert s[|a| + 1..] == b;
  }

  // ---------------------------------------------------------------------
  // strings.Split with a one-character separator
  // ---------------------------------------------------------------------

  /** strings.Split(s, string(sep)): the pieces between separators; an empty
      string gives one empty piece. */
  function Split(s: string, sep: char): (pieces: seq<string>)
    ensures |pieces| >= 1
    ensures forall k :: 0 <= k < |pieces| ==> sep !in pieces[k]
  {
    if |s| == 0 then [""]
    else if s[0] == sep then [""] + Split(s[1..], sep)
    else
      var rest := Split(s[1..], sep);
      [[s[0]] + rest[0]] + rest[1..]
  }

  /** strings.Join(pieces, string(sep)). */
  function Join(pieces: seq<string>, sep: char): string
    requires |pieces| >= 1
  {
    if |pieces| == 1 then pieces[0] else pieces[0] + [sep] + Join(pieces[1..], sep)
  }

  /** Joining the pieces of a split with the same separator restores the text. */
  lemma {:induction false} JoinSplit(s: string, sep: char)
    ensures Join(Split(s, sep), sep) == s
  {
    if |s| == 0 {
    } else if s[0] == sep {
      JoinSplit(s[1..], sep);
      assert Split(s, sep)[1..] == Split(s[1..], sep);
    } else {
      var rest := Split(s[1..], sep);
      JoinSplit(s[1..], sep);
      var pieces := Split(s, sep);
      if |rest| == 1 {
      } else {
        assert pieces[1..] == rest[1..];
        assert Join(rest, sep) == rest[0] + [sep] + Join(rest[1..], sep);
      }
    }
  }

  /** Each piece followed by the separator, concatenated. */
  function Terminated(lines: seq<string>, sep: char): string {
    if lines == [] then "" else Terminated(lines[..|lines| - 1], sep) + lines[|lines| - 1] + [sep]
  }

  lemma TerminatedStep(lines: seq<string>, k: nat, sep: char)
    requires k < |lines|
    ensures Terminated(lines[..k + 1], sep) == Terminated(lines[..k], sep) + lines[k] + [sep]
  {
    assert lines[..k + 1][..k] == lines[..k];
  }

  lemma {:induction false} SplitAfterPiece(l: string, sep: char, rest: string)
    requires sep !in l
    ensures Split(l + [sep] + rest, sep) == [l] + Split(rest, sep)
  {
    if l == [] {
      assert (l + [sep] + rest)[1..] == rest;
    } else {
      assert (l + [sep] + rest)[1..] == l[1..] + [sep] + rest;
      SplitAfterPiece(l[1..], sep, rest);
      assert [l[0]] + l[1..] == l;
    }
  }

  function TerminatedFrom(lines: seq<string>, sep: char): string {
    if lines == [] then "" else lines[0] + [sep] + TerminatedFrom(lines[1..], sep)
  }

  lemma {:induction false} TerminatedBothWays(lines: seq<string>, sep: char)
    ensures Terminated(lines, sep) == TerminatedFrom(lines, sep)
  {
    if lines != [] {
      var init := lines[..|lines| - 1];
      TerminatedBothWays(init, sep);
      if init == [] {
        assert lines == [lines[0]];
        assert lines[1..] == [];
      } else {
        TerminatedFromSnoc(init, lines[|lines| - 1], sep);
        assert init + [lines[|lines| - 1]] == lines;
      }
    }
  }

  lemma {:induction false} TerminatedFromSnoc(lines: seq<string>, last: string, sep: char)
    ensures TerminatedFrom(lines + [last], sep) == TerminatedFrom(lines, sep) + last + [sep]
  {
    if lines == [] {
      assert [last][1..] == [];
    } else {
      assert (lines + [last])[1..] == lines[1..] + [last];
      TerminatedFromSnoc(lines[1..], last, sep);
    }
  }

  /** Splitting separator-terminated pieces gives the pieces back, followed by
      the empty piece after the last separator. */
  lemma {:induction false} SplitTerminated(lines: seq<string>, sep: char)
    requires forall k :: 0 <= k < |lines| ==> sep !in lines[k]
    ensures Split(Terminated(lines, sep), sep) == lines + [""]
  {
    TerminatedBothWays(lines, sep);
    SplitTerminatedFrom(lines, sep);
  }

  lemma {:induction false} SplitTerminatedFrom(lines: seq<string>, sep: char)
    requires forall k :: 0 <= k < |lines| ==> sep !in lines[k]
    ensures Split(TerminatedFrom(lines, sep), sep) == lines + [""]
  {
    if lines != [] {
      SplitAfterPiece(lines[0], sep, TerminatedFrom(lines[1..], sep));
      SplitTerminatedFrom(lines[1..], sep);
      assert lines == [lines[0]] + lines[1..];
    }
  }

  // ---------------------------------------------------------------------
  // fmt: %d and %4d for non-negative integers
  // ---------------------------------------------------------------------

  predicate IsDigit(c: char) {
    '0' <= c <= '9'
  }

  function DigitChar(d: nat): (c: char)
    requires d < 10
    ensures IsDigit(c)
  {
    ('0' as int + d) as char
  }

  /** The decimal rendering of `n`, as fmt's %d prints it. */
  function Dec(n: nat): (s: string)
    ensures s != []
    ensures forall i :: 0 <= i < |s| ==> IsDigit(s[i])
  {
    if n < 10 then [DigitChar(n)] else Dec(n / 10) + [DigitChar(n % 10)]
  }

  /** The number a string of decimal digits denotes. */
  function DecValue(s: string): nat
    requires forall i :: 0 <= i < |s| ==> IsDigit(s[i])
  {
    if s == [] then 0 else DecValue(s[..|s| - 1]) * 10 + DigitValue(s[|s| - 1])
  }

  function DigitValue(c: char): (d: nat)
    requires IsDigit(c)
    ensures d < 10
  {
    c as int - '0' as int
  }

  /** Reading back a rendered number gives the number. */
  lemma {:induction false} DecValueOfDec(n: nat)
    ensures DecValue(Dec(n)) == n
  {
    if n >= 10 {
      DecValueOfDec(n / 10);
      var s := Dec(n);
      assert s[..|s| - 1] == Dec(n / 10);
    }
  }

  function Spaces(n: nat): (s: string)
    ensures |s| == n
  {
    if n == 0 then "" else " " + Spaces(n - 1)
  }

  /** A run of padding is made of blanks only. */
  lemma {:induction false} SpacesAreBlank(n: nat)
    ensures AllSpace(Spaces(n))
    ensures forall i :: 0 <= i < n ==> Spaces(n)[i] == ' '
  {
    if n > 0 {
      SpacesAreBlank(n - 1);
      assert forall i :: 1 <= i < n ==> Spaces(n)[i] == Spaces(n - 1)[i - 1];
    }
  }

  /** Right-justify `s` in a field of `width` characters, as a width in a fmt verb does. */
  function PadLeft(s: string, width: nat): (r: string)
    ensures |r| == if |s| < width then width else |s|
  {
    if |s| < width then Spaces(width - |s|) + s else s
  }

  /** The padded text is blanks followed by the text itself. */
  lemma PadLeftShape(s: string, width: nat)
    ensures PadLeft(s, width) == Spaces(|PadLeft(s, width)| - |s|) + s
    ensures AllSpace(Spaces(|PadLeft(s, width)| - |s|))
  {
    SpacesAreBlank(|PadLeft(s, width)| - |s|);
    if |s| >= width {
      assert s == Spaces(0) + s;
    }
  }

  // ---------------------------------------------------------------------
  // len on a Go string: the number of bytes of its UTF-8 encoding
  // ---------------------------------------------------------------------

  /** utf8.RuneLen for a Unicode scalar value. */
  function RuneLen(c: char): (n: nat)
    ensures 1 <= n <= 4
    ensures n == 1 <==> (c as int) < 0x80
  {
    if (c as int) < 0x80 then 1
    else if (c as int) < 0x800 then 2
    else if (c as int) < 0x10000 then 3
    else 4
  }

  /** The byte length of the UTF-8 encoding of `s`. */
  function Utf8Length(s: string): (n: nat)
    ensures |s| <= n <= 4 * |s|
    ensures n == |s| <==> forall i :: 0 <= i < |s| ==> (s[i] as int) < 0x80
  {
    if s == [] then 0 else RuneLen(s[0]) + Utf8Length(s[1..])
  }
}
