/**
 * The handful of Python (2) string operations the daemon relies on, on byte
 * strings modelled as `seq<char>`: `str.strip()`, `str.split(sep)`,
 * `str.split()`, `str.startswith`, `str.find`, `int(s)`, `long(s, 16)` and the
 * `%i` conversion.
 */
module Text {
  import opened Wrappers

  /** Python's whitespace for byte strings: space, \t, \n, \v, \f and \r. */
  predicate IsSpace(c: char) {
    c == ' ' || '\t' <= c <= '\r'
  }

  predicate StartsWith(s: string, prefix: string) {
    |prefix| <= |s| && s[..|prefix|] == prefix
  }

  /** `s.find("\r\n") >= 0` */
  predicate HasCrLf(s: string)
    decreases |s|
  {
    |s| >= 2 && ((s[0] == '\r' && s[1] == '\n') || HasCrLf(s[1..]))
  }

  /** Position of the first `c` in `s`, or `|s|` when there is none. */
  function IndexOf(s: string, c: char): (i: nat)
    ensures i <= |s|
    ensures c !in s[..i]
    ensures i < |s| ==> s[i] == c
    decreases |s|
  {
    if s == [] || s[0] == c then 0
    else
      var j := IndexOf(s[1..], c);
      assert s[..1 + j] == [s[0]] + s[1..][..j];
      1 + j
  }

  /** `s.split(c, 1)[0]`: the text before the first `c`. */
  function BeforeFirst(s: string, c: char): (r: string)
    ensures StartsWith(s, r)
    ensures c !in r
    ensures |r| < |s| ==> s[|r|] == c
  {
    s[..IndexOf(s, c)]
  }

  /** With no `c` in `s`, the text before the first `c` is all of `s`. */
  lemma BeforeFirstAbsent(s: string, c: char)
    requires c !in s
    ensures BeforeFirst(s, c) == s
  {
    assert |BeforeFirst(s, c)| == |s|;
  }

  /** The text before the first `c` ends where `c` first occurs. */
  lemma BeforeFirstAt(p: string, c: char, rest: string)
    requires c !in p
    ensures BeforeFirst(p + [c] + rest, c) == p
  {
    var s := p + [c] + rest;
    assert s[|p|] == c;
    assert s[..|p|] == p;
  }

  /** `"".join(chunks)`: what a sequence of reads delivers, in order. */
  function Concat(chunks: seq<string>): (s: string)
    decreases |chunks|
  {
    if chunks == [] then "" else chunks[0] + Concat(chunks[1..])
  }

  /** Reading in two goes delivers the same bytes as reading in one. */
  lemma {:induction false} ConcatSplit(chunks: seq<string>, k: nat)
    requires k <= |chunks|
    ensures Concat(chunks) == Concat(chunks[..k]) + Concat(chunks[k..])
    decreases k
  {
    if k > 0 {
      ConcatSplit(chunks[1..], k - 1);
      assert chunks[1..][..k - 1] == chunks[..k][1..];
      assert chunks[1..][k - 1..] == chunks[k..];
    } else {
      assert chunks[k..] == chunks;
    }
  }

  /** A text is its first `k` characters followed by the rest. */
  lemma TakeDrop(x: string, k: nat)
    requires k <= |x|
    ensures x == x[..k] + x[k..]
  {
  }

  /** Concatenation regroups freely. */
  lemma AppendAssoc(x: string, y: string, z: string)
    ensures x + y + z == x + (y + z)
  {
  }

  /** What a buffer `buf` holds once the first `j` chunks are appended to it. */
  function Received(buf: string, chunks: seq<string>, j: nat): string
    requires j <= |chunks|
  {
    buf + Concat(chunks[..j])
  }

  /** After the first chunk, the buffer grows by the chunks after it. */
  lemma ReceivedShift(buf: string, chunks: seq<string>, j: nat)
    requires 1 <= j <= |chunks|
    ensures Received(buf, chunks, j) == Received(buf + chunks[0], chunks[1..], j - 1)
  {
    assert chunks[..j] == [chunks[0]] + chunks[1..][..j - 1];
    assert Concat(chunks[..j]) == chunks[0] + Concat(chunks[1..][..j - 1]);
    AppendAssoc(buf, chunks[0], Concat(chunks[1..][..j - 1]));
  }

  /** Before any chunk the buffer is as it was. */
  lemma ReceivedNone(buf: string, chunks: seq<string>)
    ensures Received(buf, chunks, 0) == buf
  {
    assert chunks[..0] == [];
  }

  // ---------------------------------------------------------------------------
  // str.strip()

  function StripLeft(s: string): string
    decreases |s|
  {
    if s != [] && IsSpace(s[0]) then StripLeft(s[1..]) else s
  }

  function StripRight(s: string): string
    decreases |s|
  {
    if s != [] && IsSpace(s[|s| - 1]) then StripRight(s[..|s| - 1]) else s
  }

  /** `s.strip()`: the text between the leading and the trailing whitespace. */
  function Strip(s: string): string {
    StripRight(StripLeft(s))
  }

  /** `lstrip()` drops a prefix of whitespace and stops at the first other character. */
  lemma {:induction false} StripLeftSpec(s: string)
    ensures var r := StripLeft(s);
      |r| <= |s| && r == s[|s| - |r|..] && (r == [] || !IsSpace(r[0]))
      && forall k :: 0 <= k < |s| - |r| ==> IsSpace(s[k])
    decreases |s|
  {
    if s != [] && IsSpace(s[0]) {
      StripLeftSpec(s[1..]);
    }
  }

  /** `rstrip()` drops a suffix of whitespace and stops at the last other character. */
  lemma {:induction false} StripRightSpec(s: string)
    ensures var r := StripRight(s);
      |r| <= |s| && r == s[..|r|] && (r == [] || !IsSpace(r[|r| - 1]))
      && forall k :: |r| <= k < |s| ==> IsSpace(s[k])
    decreases |s|
  {
    if s != [] && IsSpace(s[|s| - 1]) {
      StripRightSpec(s[..|s| - 1]);
    }
  }

  /**
   * `strip()` leaves text that neither starts nor ends with whitespace, and
   * leaves alone text that already does not.
   */
  lemma StripSpec(s: string)
    ensures Strip(s) == [] || (!IsSpace(Strip(s)[0]) && !IsSpace(Strip(s)[|Strip(s)| - 1]))
    ensures s == [] || (!IsSpace(s[0]) && !IsSpace(s[|s| - 1])) ==> Strip(s) == s
  {
    var l := StripLeft(s);
    StripLeftSpec(s);
    StripRightSpec(l);
  }

  // ---------------------------------------------------------------------------
  // str.split(sep) and str.split()

  /** `s.split(sep)`: always at least one part; `|parts| - 1` separators. */
  function Split(s: string, sep: char): (parts: seq<string>)
    ensures |parts| >= 1
    ensures forall i :: 0 <= i < |parts| ==> sep !in parts[i]
    decreases |s|
  {
    if s == [] then [""]
    else
      var rest := Split(s[1..], sep);
      if s[0] == sep then [""] + rest
      else [[s[0]] + rest[0]] + rest[1..]
  }

  /** `sep.join(parts)` */
  function Join(parts: seq<string>, sep: char): string
    requires |parts| >= 1
    decreases |parts|
  {
    if |parts| == 1 then parts[0] else parts[0] + [sep] + Join(parts[1..], sep)
  }

  /** Splitting loses nothing: joining the parts with the separator gives the text back. */
  lemma {:induction false} JoinSplit(s: string, sep: char)
    ensures Join(Split(s, sep), sep) == s
    decreases |s|
  {
    if s != [] {
      var rest := Split(s[1..], sep);
      JoinSplit(s[1..], sep);
      if s[0] == sep {
        assert Split(s, sep) == [""] + rest;
        assert s == [sep] + s[1..];
      } else if |rest| == 1 {
        assert s == [s[0]] + s[1..];
      } else {
        assert Split(s, sep)[1..] == rest[1..];
        assert s == [s[0]] + s[1..];
      }
    }
  }

  /** A text without the separator is one part. */
  lemma {:induction false} SplitWithout(s: string, sep: char)
    requires sep !in s
    ensures Split(s, sep) == [s]
    decreases |s|
  {
    if s != [] {
      SplitWithout(s[1..], sep);
      assert [s[0]] + s[1..] == s;
    }
  }

  /** The first part ends at the first separator. */
  lemma {:induction false} SplitAfter(p: string, sep: char, rest: string)
    requires sep !in p
    ensures Split(p + [sep] + rest, sep) == [p] + Split(rest, sep)
    decreases |p|
  {
    var s := p + [sep] + rest;
    if p == [] {
      assert s == [sep] + rest;
      assert s[1..] == rest;
    } else {
      assert s[1..] == p[1..] + [sep] + rest;
      SplitAfter(p[1..], sep, rest);
      assert [p[0]] + p[1..] == p;
    }
  }

  /** Length of the run of non-whitespace characters that starts `s`. */
  function WordLen(s: string): (n: nat)
    ensures n <= |s|
    ensures forall k :: 0 <= k < n ==> !IsSpace(s[k])
    ensures n < |s| ==> IsSpace(s[n])
    decreases |s|
  {
    if s == [] || IsSpace(s[0]) then 0 else 1 + WordLen(s[1..])
  }

  /** `s.split()`: the maximal runs of non-whitespace characters, in order. */
  function Fields(s: string): (r: seq<string>)
    ensures forall i :: 0 <= i < |r| ==> r[i] != []
    ensures forall i, k :: 0 <= i < |r| && 0 <= k < |r[i]| ==> !IsSpace(r[i][k])
    decreases |s|
  {
    if s == [] then []
    else if IsSpace(s[0]) then Fields(s[1..])
    else
      var n := WordLen(s);
      [s[..n]] + Fields(s[n..])
  }

  /** A word is the run of non-whitespace characters it starts, when whitespace or the end follows it. */
  lemma WordLenOf(w: string, rest: string)
    requires forall k :: 0 <= k < |w| ==> !IsSpace(w[k])
    requires rest == [] || IsSpace(rest[0])
    ensures WordLen(w + rest) == |w|
  {
    assert forall k :: 0 <= k < |w| ==> (w + rest)[k] == w[k];
    assert rest != [] ==> (w + rest)[|w|] == rest[0];
  }

  /** Text of whitespace only has no fields. */
  lemma {:induction false} FieldsBlank(pad: string)
    requires forall k :: 0 <= k < |pad| ==> IsSpace(pad[k])
    ensures Fields(pad) == []
    decreases |pad|
  {
    if pad != [] {
      FieldsBlank(pad[1..]);
    }
  }

  /**
   * `split()` passes over leading whitespace and takes the next word as the
   * first field; the fields after it are those of what follows the word.
   */
  lemma {:induction false} FieldsWord(pad: string, w: string, rest: string)
    requires forall k :: 0 <= k < |pad| ==> IsSpace(pad[k])
    requires w != [] && forall k :: 0 <= k < |w| ==> !IsSpace(w[k])
    requires rest == [] || IsSpace(rest[0])
    ensures Fields(pad + w + rest) == [w] + Fields(rest)
    decreases |pad|
  {
    var s := pad + w + rest;
    if pad == [] {
      assert s == w + rest;
      WordLenOf(w, rest);
      assert s[..|w|] == w && s[|w|..] == rest;
    } else {
      assert s[1..] == pad[1..] + w + rest;
      FieldsWord(pad[1..], w, rest);
    }
  }

  /**
   * `split()` gives back the words a line was made of: non-empty words
   * without whitespace, joined by single spaces after any indentation,
   * are its fields, in order.
   */
  lemma {:induction false} FieldsJoin(pad: string, words: seq<string>)
    requires forall k :: 0 <= k < |pad| ==> IsSpace(pad[k])
    requires |words| >= 1
    requires forall i :: 0 <= i < |words| ==> words[i] != [] && forall k :: 0 <= k < |words[i]| ==> !IsSpace(words[i][k])
    ensures Fields(pad + Join(words, ' ')) == words
    decreases |words|
  {
    if |words| == 1 {
      FieldsWord(pad, words[0], []);
      assert pad + Join(words, ' ') == pad + words[0] + [];
      assert Fields([]) == [];
    } else {
      var tail := Join(words[1..], ' ');
      assert pad + Join(words, ' ') == pad + words[0] + (" " + tail);
      FieldsWord(pad, words[0], " " + tail);
      FieldsJoin(" ", words[1..]);
      assert " " + tail == " " + Join(words[1..], ' ');
      assert [words[0]] + words[1..] == words;
    }
  }

  /** Text that is all whitespace, possibly none. */
  predicate Blank(s: string) {
    forall k :: 0 <= k < |s| ==> IsSpace(s[k])
  }

  /**
   * Words laid out in columns: `gaps[0]`, `words[0]`, `gaps[1]`, ...,
   * `words[n-1]`, `gaps[n]`, where the gaps are runs of whitespace.
   */
  function Layout(gaps: seq<string>, words: seq<string>): string
    requires |gaps| == |words| + 1
    decreases |words|
  {
    if words == [] then gaps[0] else gaps[0] + words[0] + Layout(gaps[1..], words[1..])
  }

  /**
   * `split()` gives back the columns of a line however they are padded:
   * words separated by non-empty runs of whitespace, with any whitespace
   * before the first and after the last, are its fields, in order.
   */
  lemma {:induction false} FieldsLayout(gaps: seq<string>, words: seq<string>)
    requires |gaps| == |words| + 1
    requires forall i :: 0 <= i < |gaps| ==> Blank(gaps[i])
    requires forall i :: 1 <= i < |words| ==> gaps[i] != []
    requires forall i :: 0 <= i < |words| ==> words[i] != [] && forall k :: 0 <= k < |words[i]| ==> !IsSpace(words[i][k])
    ensures Fields(Layout(gaps, words)) == words
    decreases |words|
  {
    if words == [] {
      FieldsBlank(gaps[0]);
    } else {
      var rest := Layout(gaps[1..], words[1..]);
      assert Blank(gaps[1]);
      if |words| > 1 {
        assert rest == gaps[1] + words[1] + Layout(gaps[2..], words[2..]);
        assert rest[0] == gaps[1][0];
      }
      FieldsWord(gaps[0], words[0], rest);
      FieldsLayout(gaps[1..], words[1..]);
      assert [words[0]] + words[1..] == words;
    }
  }

  // ---------------------------------------------------------------------------
  // Decimal and hexadecimal numbers

  predicate IsDigit(c: char) {
    '0' <= c <= '9'
  }

  predicate AllDigits(s: string) {
    forall i :: 0 <= i < |s| ==> IsDigit(s[i])
  }

  function DigitValue(c: char): (d: nat)
    requires IsDigit(c)
    ensures d < 10
  {
    c as int - '0' as int
  }

  function DigitChar(d: nat): (c: char)
    requires d < 10
    ensures IsDigit(c) && DigitValue(c) == d
  {
    ('0' as int + d) as char
  }

  /** The value of a string of decimal digits, most significant first. */
  function DigitsValue(s: string): nat
    requires AllDigits(s)
    decreases |s|
  {
    if s == [] then 0 else DigitsValue(s[..|s| - 1]) * 10 + DigitValue(s[|s| - 1])
  }

  /** Decimal text of a natural number. */
  function NatText(n: nat): (s: string)
    ensures s != [] && AllDigits(s)
    ensures DigitsValue(s) == n
    decreases n
  {
    if n < 10 then [DigitChar(n)]
    else
      var s := NatText(n / 10) + [DigitChar(n % 10)];
      assert s[..|s| - 1] == NatText(n / 10);
      s
  }

  /** `"%i" % n` */
  function IntText(n: int): (s: string)
    ensures s != []
    ensures s[0] == '-' <==> n < 0
  {
    if n < 0 then "-" + NatText(-n) else NatText(n)
  }

  /** `"%i" % n` holds no comma, carriage return or colon. */
  lemma IntTextPlain(n: int)
    ensures ',' !in IntText(n) && '\r' !in IntText(n) && ':' !in IntText(n)
  {
    var s := IntText(n);
    var d := NatText(if n < 0 then -n else n);
    forall i | 0 <= i < |s|
      ensures s[i] == '-' || IsDigit(s[i])
    {
      if n < 0 && i > 0 {
        assert s[i] == d[i - 1];
      }
    }
  }

  /** Two texts without the separator, joined by it, split back into those two. */
  lemma SplitPair(p: string, sep: char, q: string)
    requires sep !in p && sep !in q
    ensures Split(p + [sep] + q, sep) == [p, q]
  {
    SplitAfter(p, sep, q);
    SplitWithout(q, sep);
  }

  /** Length of the run of decimal digits that starts `s`. */
  function DigitRun(s: string): (n: nat)
    ensures n <= |s|
    decreases |s|
  {
    if s == [] || !IsDigit(s[0]) then 0 else 1 + DigitRun(s[1..])
  }

  /** The run is all digits and stops at the first character that is not one. */
  lemma {:induction false} DigitRunSpec(s: string)
    ensures AllDigits(s[..DigitRun(s)])
    ensures DigitRun(s) < |s| ==> !IsDigit(s[DigitRun(s)])
    decreases |s|
  {
    if s != [] && IsDigit(s[0]) {
      DigitRunSpec(s[1..]);
      var k := DigitRun(s[1..]);
      assert s[..1 + k] == [s[0]] + s[1..][..k];
    }
  }

  /** A run of digits followed by a non-digit is measured exactly. */
  lemma {:induction false} DigitRunOf(d: string, rest: string)
    requires AllDigits(d)
    requires rest == [] || !IsDigit(rest[0])
    ensures DigitRun(d + rest) == |d|
    decreases |d|
  {
    if d != [] {
      assert (d + rest)[1..] == d[1..] + rest;
      DigitRunOf(d[1..], rest);
    } else {
      assert d + rest == rest;
    }
  }

  /**
   * Python's `int(s)` on a byte string: surrounding whitespace, an optional
   * sign, more whitespace, and at least one decimal digit; `None` stands for
   * the ValueError.
   */
  function ParseInt(s: string): (r: Option<int>)
  {
    ParseStripped(Strip(s))
  }

  /**
   * Stripped text: an optional sign, whitespace (which `PyOS_strtoul` skips
   * after the sign), and at least one decimal digit, and nothing else.
   */
  function ParseStripped(t: string): (r: Option<int>)
  {
    if t != [] && (t[0] == '-' || t[0] == '+') then
      var d := StripLeft(t[1..]);
      if d != [] && AllDigits(d) then
        Some(if t[0] == '-' then -(DigitsValue(d) as int) else DigitsValue(d))
      else None
    else if t != [] && AllDigits(t) then Some(DigitsValue(t))
    else None
  }

  /** `int("%i" % n) == n`: the decimal text of a number reads back as that number. */
  lemma ParseIntText(n: int)
    ensures ParseInt(IntText(n)) == Some(n)
  {
    var s := IntText(n);
    assert !IsSpace(s[0]) && !IsSpace(s[|s| - 1]);
    assert Strip(s) == s;
    if n < 0 {
      assert s[1..] == NatText(-n);
    }
  }

  /** Leading whitespace is dropped by `strip()`. */
  lemma {:induction false} StripLeftPadded(pad: string, t: string)
    requires forall k :: 0 <= k < |pad| ==> IsSpace(pad[k])
    requires t == [] || !IsSpace(t[0])
    ensures StripLeft(pad + t) == t
    decreases |pad|
  {
    if pad == [] {
      assert pad + t == t;
    } else {
      assert (pad + t)[1..] == pad[1..] + t;
      StripLeftPadded(pad[1..], t);
    }
  }

  /** Whitespace in front of a number does not change what `int()` reads. */
  lemma ParseIntPadded(n: int, pad: string)
    requires forall k :: 0 <= k < |pad| ==> IsSpace(pad[k])
    ensures ParseInt(pad + IntText(n)) == Some(n)
  {
    var t := IntText(n);
    StripLeftPadded(pad, t);
    ParseIntText(n);
    ParseIntStripped(pad + t, t);
  }

  /**
   * `int()` allows whitespace between the sign and the digits:
   * `int("+ 113") == 113` and `int("-\t5") == -5`.
   */
  lemma ParseIntSignPadded(sign: char, pad: string, n: nat)
    requires sign == '+' || sign == '-'
    requires forall k :: 0 <= k < |pad| ==> IsSpace(pad[k])
    ensures ParseInt([sign] + pad + NatText(n)) == Some(if sign == '-' then -(n as int) else n)
  {
    var d := NatText(n);
    var s := [sign] + pad + d;
    assert s[|s| - 1] == d[|d| - 1];
    StripSpec(s);
    assert s[1..] == pad + d;
    StripLeftPadded(pad, d);
  }

  /** `int()` sees only the stripped text. */
  lemma ParseIntStripped(x: string, y: string)
    requires StripLeft(x) == StripLeft(y)
    ensures ParseInt(x) == ParseInt(y)
  {
    assert Strip(x) == Strip(y);
  }

  predicate IsHexDigit(c: char) {
    IsDigit(c) || 'a' <= c <= 'f' || 'A' <= c <= 'F'
  }

  predicate AllHex(s: string) {
    forall i :: 0 <= i < |s| ==> IsHexDigit(s[i])
  }

  function HexDigitValue(c: char): (d: nat)
    requires IsHexDigit(c)
    ensures d < 16
  {
    if IsDigit(c) then DigitValue(c)
    else if 'a' <= c <= 'f' then c as int - 'a' as int + 10
    else c as int - 'A' as int + 10
  }

  function HexValue(s: string): nat
    requires AllHex(s)
    decreases |s|
  {
    if s == [] then 0 else HexValue(s[..|s| - 1]) * 16 + HexDigitValue(s[|s| - 1])
  }

  /** `long(s, 16)` on a field of `/proc/net/tcp`; `None` stands for the ValueError. */
  function ParseHex(s: string): (r: Option<nat>)
  {
    if s != [] && AllHex(s) then Some(HexValue(s)) else None
  }

  function Pow16(w: nat): (p: nat)
    ensures p >= 1
  {
    if w == 0 then 1 else 16 * Pow16(w - 1)
  }

  function HexChar(d: nat): (c: char)
    requires d < 16
    ensures IsHexDigit(c) && HexDigitValue(c) == d
  {
    if d < 10 then DigitChar(d) else ('A' as int + d - 10) as char
  }

  /** `"%0*X" % (w, n)`: upper-case hexadecimal, zero-padded to `w` digits. */
  function HexText(n: nat, w: nat): (s: string)
    requires n < Pow16(w)
    ensures |s| == w && AllHex(s)
    ensures HexValue(s) == n
    decreases w
  {
    if w == 0 then ""
    else
      var s := HexText(n / 16, w - 1) + [HexChar(n % 16)];
      assert s[..|s| - 1] == HexText(n / 16, w - 1);
      s
  }
}
