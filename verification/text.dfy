/** Byte strings and the few standard-library string operations the generator
    relies on: `bytes.IndexByte`, `strings.Join`, `strings.TrimSpace` and the
    `%q` quoting of `fmt`, with a byte count to state what they do. */
module Text {
  import opened Wrappers
  import opened Seqs

  /** A byte, written as a character so that string literals can be used. */
  type Byte = c: char | c as int < 256

  /** A Go `string` or `[]byte`: both are sequences of bytes. */
  type Bytes = seq<Byte>

  /** The ASCII white space that `strings.TrimSpace` removes. */
  predicate IsSpace(b: Byte)
  {
    b == ' ' || b == '\t' || b == '\n' || b == '\r' || b == 11 as char || b == 12 as char
  }

  predicate AllSpace(s: Bytes)
  {
    forall i :: 0 <= i < |s| ==> IsSpace(s[i])
  }

  /** The index of the first `b` in `s` at or after `i`, or -1. */
  function IndexFrom(s: Bytes, b: Byte, i: nat): (r: int)
    requires i <= |s|
    ensures r == -1 || i <= r < |s|
    decreases |s| - i
  {
    if i == |s| then -1
    else if s[i] == b then i
    else IndexFrom(s, b, i + 1)
  }

  /** `bytes.IndexByte`: the index of the first `b` in `s`, or -1.
      `IndexByteFirst` states that it is the first. */
  function IndexByte(s: Bytes, b: Byte): (r: int)
    ensures -1 <= r < |s|
  {
    IndexFrom(s, b, 0)
  }

  /** The scan from `i` stops at the first `b`, and finds none only when
      there is none. */
  lemma {:induction false} IndexFromFirst(s: Bytes, b: Byte, i: nat)
    requires i <= |s|
    ensures IndexFrom(s, b, i) == -1 <==> forall j :: i <= j < |s| ==> s[j] != b
    ensures IndexFrom(s, b, i) >= 0 ==> s[IndexFrom(s, b, i)] == b
    ensures forall j :: i <= j < IndexFrom(s, b, i) ==> s[j] != b
    decreases |s| - i
  {
    if i < |s| && s[i] != b {
      IndexFromFirst(s, b, i + 1);
    }
  }

  /** -1 means that `b` does not occur; any other result is the first
      occurrence. */
  lemma IndexByteFirst(s: Bytes, b: Byte)
    ensures IndexByte(s, b) == -1 <==> b !in s
    ensures IndexByte(s, b) >= 0 ==> s[IndexByte(s, b)] == b && b !in s[..IndexByte(s, b)]
  {
    IndexFromFirst(s, b, 0);
    var r := IndexByte(s, b);
    if r >= 0 {
      forall j | 0 <= j < r ensures s[..r][j] != b {
        assert s[..r][j] == s[j];
      }
    }
  }

  /** The index of the first `b` after a prefix free of `b`. */
  lemma IndexByteAfter(head: Bytes, b: Byte, rest: Bytes)
    requires b !in head
    ensures IndexByte(head + [b] + rest, b) == |head|
  {
    var s := head + [b] + rest;
    IndexByteFirst(s, b);
    assert s[|head|] == b;
    var r := IndexByte(s, b);
    forall i | 0 <= i < |head| ensures s[i] != b {
      assert s[i] == head[i];
    }
    forall i | 0 <= i < r ensures s[i] != b {
      assert s[i] == s[..r][i];
    }
  }

  /** `strings.Join`: the parts with `sep` between each two of them. */
  function Join(parts: seq<Bytes>, sep: Bytes): Bytes
  {
    if |parts| == 0 then []
    else if |parts| == 1 then parts[0]
    else parts[0] + sep + Join(parts[1..], sep)
  }

  lemma JoinCons(part: Bytes, parts: seq<Bytes>, sep: Bytes)
    requires |parts| >= 1
    ensures Join([part] + parts, sep) == part + sep + Join(parts, sep)
  {
    assert ([part] + parts)[1..] == parts;
  }

  /** Joining one more part at the end adds the separator and the part. */
  lemma {:induction false} JoinSnoc(parts: seq<Bytes>, part: Bytes, sep: Bytes)
    requires |parts| >= 1
    ensures Join(parts + [part], sep) == Join(parts, sep) + sep + part
  {
    if |parts| == 1 {
      assert parts + [part] == [parts[0], part];
      assert (parts + [part])[1..] == [part];
    } else {
      assert (parts + [part])[1..] == parts[1..] + [part];
      JoinSnoc(parts[1..], part, sep);
    }
  }

  /** Joining only empty parts with a white-space separator gives white space. */
  lemma {:induction false} JoinEmptyPartsIsSpace(parts: seq<Bytes>, sep: Bytes)
    requires forall i :: 0 <= i < |parts| ==> parts[i] == []
    requires AllSpace(sep)
    ensures AllSpace(Join(parts, sep))
  {
    if |parts| > 1 {
      JoinEmptyPartsIsSpace(parts[1..], sep);
      var rest := Join(parts[1..], sep);
      assert Join(parts, sep) == sep + rest;
    }
  }

  /** The first index at or after `i` that does not hold white space, or
      `|s|`. */
  function SkipSpace(s: Bytes, i: nat): (j: nat)
    requires i <= |s|
    ensures i <= j <= |s|
    decreases |s| - i
  {
    if i < |s| && IsSpace(s[i]) then SkipSpace(s, i + 1) else i
  }

  /** The last index at or after `lo` and at or before `j` such that the bytes
      from it up to `j` are all white space. */
  function BackSpace(s: Bytes, lo: nat, j: nat): (k: nat)
    requires lo <= j <= |s|
    ensures lo <= k <= j
    decreases j
  {
    if lo < j && IsSpace(s[j - 1]) then BackSpace(s, lo, j - 1) else j
  }

  /** The number of white-space bytes `s` starts with. */
  function LeadingSpace(s: Bytes): (n: nat)
    ensures n <= |s|
  {
    SkipSpace(s, 0)
  }

  lemma {:induction false} SkipSpaceSpans(s: Bytes, i: nat)
    requires i <= |s|
    ensures forall k :: i <= k < SkipSpace(s, i) ==> IsSpace(s[k])
    decreases |s| - i
  {
    if i < |s| && IsSpace(s[i]) {
      SkipSpaceSpans(s, i + 1);
    }
  }

  lemma SkipSpaceStops(s: Bytes, i: nat)
    requires i <= |s|
    ensures SkipSpace(s, i) == |s| || !IsSpace(s[SkipSpace(s, i)])
    decreases |s| - i
  {
  }

  lemma {:induction false} BackSpaceSpans(s: Bytes, lo: nat, j: nat)
    requires lo <= j <= |s|
    ensures forall k :: BackSpace(s, lo, j) <= k < j ==> IsSpace(s[k])
    decreases j
  {
    if lo < j && IsSpace(s[j - 1]) {
      BackSpaceSpans(s, lo, j - 1);
    }
  }

  lemma BackSpaceStops(s: Bytes, lo: nat, j: nat)
    requires lo <= j <= |s|
    ensures BackSpace(s, lo, j) == lo || !IsSpace(s[BackSpace(s, lo, j) - 1])
    decreases j
  {
  }

  /** `strings.TrimSpace` over ASCII white space: the bytes between the
      leading and the trailing white space. What it keeps and removes is
      stated by `TrimSpaceTrims`. */
  function TrimSpace(s: Bytes): Bytes
  {
    var i := SkipSpace(s, 0);
    s[i..BackSpace(s, i, |s|)]
  }

  /** Neither end of what `TrimSpace` keeps is white space. */
  lemma TrimSpaceEnds(s: Bytes)
    ensures TrimSpace(s) == [] || (!IsSpace(TrimSpace(s)[0]) && !IsSpace(TrimSpace(s)[|TrimSpace(s)| - 1]))
  {
    var i := SkipSpace(s, 0);
    if TrimSpace(s) != [] {
      SkipSpaceStops(s, 0);
      BackSpaceStops(s, i, |s|);
    }
  }

  /** `TrimSpace` leaves nothing exactly when `s` is all white space. */
  lemma TrimSpaceEmpty(s: Bytes)
    ensures TrimSpace(s) == [] <==> AllSpace(s)
  {
    var i := SkipSpace(s, 0);
    SkipSpaceSpans(s, 0);
    BackSpaceSpans(s, i, |s|);
    if TrimSpace(s) == [] {
      forall k | 0 <= k < |s| ensures IsSpace(s[k]) {
        if k < i {
          assert 0 <= k < SkipSpace(s, 0);
        }
      }
    } else {
      SkipSpaceStops(s, 0);
    }
  }

  /** `TrimSpace` removes the white space at both ends of `s` and nothing
      else, so it leaves nothing exactly when `s` is all white space. */
  lemma TrimSpaceTrims(s: Bytes)
    ensures LeadingSpace(s) + |TrimSpace(s)| <= |s|
    ensures TrimSpace(s) == s[LeadingSpace(s)..LeadingSpace(s) + |TrimSpace(s)|]
    ensures AllSpace(s[..LeadingSpace(s)])
    ensures AllSpace(s[LeadingSpace(s) + |TrimSpace(s)|..])
    ensures TrimSpace(s) == [] || (!IsSpace(TrimSpace(s)[0]) && !IsSpace(TrimSpace(s)[|TrimSpace(s)| - 1]))
    ensures AllSpace(s) <==> TrimSpace(s) == []
  {
    var i := SkipSpace(s, 0);
    var j := BackSpace(s, i, |s|);
    SkipSpaceSpans(s, 0);
    BackSpaceSpans(s, i, |s|);
    forall k | 0 <= k < i ensures IsSpace(s[..i][k]) {
      assert s[..i][k] == s[k];
    }
    forall k | 0 <= k < |s| - j ensures IsSpace(s[j..][k]) {
      assert s[j..][k] == s[j + k];
    }
    TrimSpaceEnds(s);
    TrimSpaceEmpty(s);
  }

  lemma {:induction false} SkipSpaceReaches(s: Bytes, i: nat, n: nat)
    requires i <= n <= |s|
    requires forall k :: i <= k < n ==> IsSpace(s[k])
    requires n == |s| || !IsSpace(s[n])
    ensures SkipSpace(s, i) == n
    decreases n - i
  {
    if i < n {
      SkipSpaceReaches(s, i + 1, n);
    }
  }

  lemma {:induction false} BackSpaceReaches(s: Bytes, lo: nat, j: nat, n: nat)
    requires lo <= n <= j <= |s|
    requires forall k :: n <= k < j ==> IsSpace(s[k])
    requires n == lo || !IsSpace(s[n - 1])
    ensures BackSpace(s, lo, j) == n
    decreases j
  {
    if n < j {
      BackSpaceReaches(s, lo, j - 1, n);
    }
  }

  /** What `TrimSpace` keeps is determined by its ends: white space around a
      middle that neither starts nor ends with white space trims to that
      middle. */
  lemma TrimSpaceUnique(p: Bytes, m: Bytes, q: Bytes)
    requires AllSpace(p) && AllSpace(q)
    requires m == [] || (!IsSpace(m[0]) && !IsSpace(m[|m| - 1]))
    ensures TrimSpace(p + m + q) == m
  {
    var s := p + m + q;
    if m == [] {
      assert forall k :: 0 <= k < |s| ==> s[k] == if k < |p| then p[k] else q[k - |p|];
      SkipSpaceReaches(s, 0, |s|);
    } else {
      assert forall k :: 0 <= k < |p| ==> s[k] == p[k];
      assert forall k :: |p| + |m| <= k < |s| ==> s[k] == q[k - |p| - |m|];
      assert s[|p|] == m[0] && s[|p| + |m| - 1] == m[|m| - 1];
      SkipSpaceReaches(s, 0, |p|);
      BackSpaceReaches(s, |p|, |s|, |p| + |m|);
      assert s[|p|..|p| + |m|] == m;
    }
  }

  /** White space added at either end does not change what `TrimSpace`
      keeps. */
  lemma TrimSpacePadded(a: Bytes, x: Bytes, b: Bytes)
    requires AllSpace(a) && AllSpace(b)
    ensures TrimSpace(a + x + b) == TrimSpace(x)
  {
    TrimSpaceTrims(x);
    var lead := LeadingSpace(x);
    var t := TrimSpace(x);
    var p := a + x[..lead];
    var q := x[lead + |t|..] + b;
    assert x == x[..lead] + t + x[lead + |t|..];
    assert a + x + b == p + t + q;
    assert AllSpace(p) by {
      assert forall k :: 0 <= k < |p| ==> p[k] == if k < |a| then a[k] else x[..lead][k - |a|];
    }
    assert AllSpace(q) by {
      var r := x[lead + |t|..];
      assert forall k :: 0 <= k < |q| ==> q[k] == if k < |r| then r[k] else b[k - |r|];
    }
    TrimSpaceUnique(p, t, q);
  }

  /** An empty first part adds only a separator of white space. */
  lemma TrimJoinEmptyFirst(parts: seq<Bytes>, sep: Bytes)
    requires AllSpace(sep)
    ensures TrimSpace(Join([[]] + parts, sep)) == TrimSpace(Join(parts, sep))
  {
    if parts != [] {
      JoinCons([], parts, sep);
      assert Join([[]] + parts, sep) == sep + Join(parts, sep) + [];
      TrimSpacePadded(sep, Join(parts, sep), []);
    }
  }

  /** An empty last part adds only a separator of white space. */
  lemma TrimJoinEmptyLast(parts: seq<Bytes>, sep: Bytes)
    requires AllSpace(sep)
    ensures TrimSpace(Join(parts + [[]], sep)) == TrimSpace(Join(parts, sep))
  {
    if parts != [] {
      JoinSnoc(parts, [], sep);
      assert Join(parts + [[]], sep) == [] + Join(parts, sep) + sep;
      TrimSpacePadded([], Join(parts, sep), sep);
    } else {
      assert parts + [[]] == [[]];
    }
  }

  // Quoting as done by `%q` (strconv.Quote), for the ASCII range.

  const Backslash: Byte := '\\'
  const DoubleQuote: Byte := '"'

  /** The lower-case hexadecimal digit for `n`. */
  function HexDigit(n: int): Byte
    requires 0 <= n < 16
  {
    if n < 10 then ('0' as int + n) as char else ('a' as int + n - 10) as char
  }

  /** The value of a lower-case hexadecimal digit. */
  function HexValue(c: Byte): (r: int)
    ensures 0 <= r < 16
  {
    if '0' <= c <= '9' then c as int - '0' as int
    else if 'a' <= c <= 'f' then c as int - 'a' as int + 10
    else 0
  }

  /** The letter of the one-letter escape `\x` for a control byte, if it has one. */
  function NamedEscape(b: Byte): Byte
  {
    match b as int
    case 7 => 'a'
    case 8 => 'b'
    case 9 => 't'
    case 10 => 'n'
    case 11 => 'v'
    case 12 => 'f'
    case 13 => 'r'
    case _ => 0 as char
  }

  /** The byte a one-letter escape stands for, or 0 when the letter is not one. */
  function NamedUnescape(c: Byte): Byte
  {
    match c
    case 'a' => 7 as char
    case 'b' => 8 as char
    case 't' => 9 as char
    case 'n' => 10 as char
    case 'v' => 11 as char
    case 'f' => 12 as char
    case 'r' => 13 as char
    case _ => 0 as char
  }

  /** How `%q` writes one byte inside the quotes. Bytes from 0x80 up are
      written as they are. */
  function Escape(b: Byte): (r: Bytes)
    ensures 1 <= |r| <= 4
  {
    if b == DoubleQuote || b == Backslash then [Backslash, b]
    else if 7 <= b as int <= 13 then [Backslash, NamedEscape(b)]
    else if b as int < 32 || b as int == 127 then [Backslash, 'x', HexDigit(b as int / 16), HexDigit(b as int % 16)]
    else [b]
  }

  function EscapeAll(s: Bytes): Bytes
  {
    if s == [] then [] else Escape(s[0]) + EscapeAll(s[1..])
  }

  /** `fmt.Sprintf("%q", s)`: `s` between double quotes, escaped. */
  function Quote(s: Bytes): (r: Bytes)
    ensures |r| >= 2 && r[0] == DoubleQuote && r[|r| - 1] == DoubleQuote
  {
    [DoubleQuote] + EscapeAll(s) + [DoubleQuote]
  }

  /** Reads back what `EscapeAll` wrote. */
  function Unescape(e: Bytes): Bytes
  {
    if e == [] then []
    else if e[0] == Backslash && |e| >= 4 && e[1] == 'x' then
      [(HexValue(e[2]) * 16 + HexValue(e[3])) as char] + Unescape(e[4..])
    else if e[0] == Backslash && |e| >= 2 && (e[1] == DoubleQuote || e[1] == Backslash) then
      [e[1]] + Unescape(e[2..])
    else if e[0] == Backslash && |e| >= 2 && NamedUnescape(e[1]) != 0 as char then
      [NamedUnescape(e[1])] + Unescape(e[2..])
    else [e[0]] + Unescape(e[1..])
  }

  /** Reads back what `Quote` wrote. */
  function Unquote(q: Bytes): Option<Bytes>
  {
    if |q| >= 2 && q[0] == DoubleQuote && q[|q| - 1] == DoubleQuote then Some(Unescape(q[1..|q| - 1]))
    else None
  }

  lemma EscapeThenUnescape(b: Byte, rest: Bytes)
    ensures Unescape(Escape(b) + rest) == [b] + Unescape(rest)
  {
    var e := Escape(b) + rest;
    if b == DoubleQuote || b == Backslash {
      assert e[2..] == rest;
    } else if 7 <= b as int <= 13 {
      assert e[2..] == rest;
    } else if b as int < 32 || b as int == 127 {
      assert e[4..] == rest;
      assert HexValue(HexDigit(b as int / 16)) * 16 + HexValue(HexDigit(b as int % 16)) == b as int;
    } else {
      assert e[1..] == rest;
    }
  }

  lemma {:induction false} UnescapeEscapeAll(s: Bytes)
    ensures Unescape(EscapeAll(s)) == s
  {
    if s != [] {
      EscapeThenUnescape(s[0], EscapeAll(s[1..]));
      UnescapeEscapeAll(s[1..]);
    }
  }

  /** Quoting loses nothing: unquoting gives the original back. */
  lemma UnquoteQuote(s: Bytes)
    ensures Unquote(Quote(s)) == Some(s)
  {
    var q := Quote(s);
    assert q[1..|q| - 1] == EscapeAll(s);
    UnescapeEscapeAll(s);
  }

  /** So two different byte strings never quote to the same text. */
  lemma QuoteInjective(a: Bytes, b: Bytes)
    requires Quote(a) == Quote(b)
    ensures a == b
  {
    UnquoteQuote(a);
    UnquoteQuote(b);
  }
}
