/**
 * The Python string operations the script relies on, over `string` values:
 * `str.isspace`, `str.strip`, `str.split(sep)`, `sep.join`, `str.split()`,
 * `str.isdigit`, `int` and decimal formatting.
 */
module Text {
  import opened Wrappers

  /** Python's `str.isspace`: the characters `strip()` removes and `split()` splits on. */
  predicate IsSpace(c: char) {
    ('\t' <= c <= '\r') || ('\U{1C}' <= c <= '\U{1F}') || c == ' ' ||
    c == '\U{85}' || c == '\U{A0}' || c == '\U{1680}' ||
    ('\U{2000}' <= c <= '\U{200A}') || c == '\U{2028}' || c == '\U{2029}' ||
    c == '\U{202F}' || c == '\U{205F}' || c == '\U{3000}'
  }

  /** Leading whitespace removed: the longest suffix of `s` that does not start with a space. */
  function TrimLeft(s: string): (r: string)
    ensures |r| <= |s| && r == s[|s| - |r|..]
    ensures r == [] || !IsSpace(r[0])
    ensures forall k :: 0 <= k < |s| - |r| ==> IsSpace(s[k])
    decreases |s|
  {
    if s != [] && IsSpace(s[0]) then TrimLeft(s[1..]) else s
  }

  /** Trailing whitespace removed: the longest prefix of `s` that does not end with a space. */
  function TrimRight(s: string): (r: string)
    ensures |r| <= |s| && r == s[..|r|]
    ensures r == [] || !IsSpace(r[|r| - 1])
    ensures forall k :: |r| <= k < |s| ==> IsSpace(s[k])
    decreases |s|
  {
    if s != [] && IsSpace(s[|s| - 1]) then TrimRight(s[..|s| - 1]) else s
  }

  /** Python's `str.strip()`. */
  function Strip(s: string): (r: string)
    ensures |r| <= |s|
    ensures r == [] || (!IsSpace(r[0]) && !IsSpace(r[|r| - 1]))
  {
    TrimRight(TrimLeft(s))
  }

  /** `strip()` only removes characters. */
  lemma StripChars(s: string)
    ensures forall c :: c in Strip(s) ==> c in s
  {
    var l := TrimLeft(s);
    var r := TrimRight(l);
    assert forall c :: c in r ==> c in l by {
      forall c | c in r ensures c in l {
        var k :| 0 <= k < |r| && r[k] == c;
        assert l[k] == c;
      }
    }
    assert forall c :: c in l ==> c in s by {
      forall c | c in l ensures c in s {
        var k :| 0 <= k < |l| && l[k] == c;
        assert s[|s| - |l| + k] == c;
      }
    }
  }

  /** A string that starts and ends with a non-space is its own `strip()`. */
  lemma StripStripped(s: string)
    requires s == [] || (!IsSpace(s[0]) && !IsSpace(s[|s| - 1]))
    ensures Strip(s) == s
  {
    assert TrimLeft(s) == s;
  }

  /** `strip()` is idempotent. */
  lemma StripIdempotent(s: string)
    ensures Strip(Strip(s)) == Strip(s)
  {
    StripStripped(Strip(s));
  }

  /* ---------------------------------------------------------------------- */
  /* str.split(sep) and sep.join(parts)                                      */

  /** Python's `s.split(sep)` for a one-character separator: never an empty list. */
  function Split(s: string, sep: char): (parts: seq<string>)
    ensures |parts| >= 1
    decreases |s|
  {
    if s == [] then [[]]
    else if s[0] == sep then [[]] + Split(s[1..], sep)
    else
      var rest := Split(s[1..], sep);
      [[s[0]] + rest[0]] + rest[1..]
  }

  /** Python's `sep.join(parts)`. */
  function Join(parts: seq<string>, sep: char): string
    decreases |parts|
  {
    if parts == [] then []
    else if |parts| == 1 then parts[0]
    else parts[0] + [sep] + Join(parts[1..], sep)
  }

  /** The last element of a non-empty sequence (Python's `xs[-1]`). */
  function Last<T>(xs: seq<T>): T
    requires xs != []
  {
    xs[|xs| - 1]
  }

  /** No part of a split contains the separator. */
  lemma {:induction false} SplitPartsFree(s: string, sep: char)
    ensures forall p :: p in Split(s, sep) ==> sep !in p
    decreases |s|
  {
    if s != [] {
      SplitPartsFree(s[1..], sep);
      if s[0] != sep {
        var rest := Split(s[1..], sep);
        assert forall p :: p in rest[1..] ==> p in rest;
        assert sep !in rest[0];
        assert sep !in [s[0]] + rest[0];
      }
    }
  }

  /** A string splits into itself alone exactly when it holds no separator. */
  lemma {:induction false} SplitSingle(s: string, sep: char)
    ensures (|Split(s, sep)| == 1) == (sep !in s)
    ensures sep !in s ==> Split(s, sep) == [s]
    decreases |s|
  {
    if s != [] {
      SplitSingle(s[1..], sep);
      if s[0] != sep {
        assert sep in s <==> sep in s[1..] by {
          assert s == [s[0]] + s[1..];
        }
        if sep !in s {
          assert Split(s, sep) == [[s[0]] + s[1..]];
          assert [s[0]] + s[1..] == s;
        }
      }
    }
  }

  /** Joining the parts of a split gives back the original string. */
  lemma {:induction false} JoinSplit(s: string, sep: char)
    ensures Join(Split(s, sep), sep) == s
    decreases |s|
  {
    if s != [] {
      JoinSplit(s[1..], sep);
      var rest := Split(s[1..], sep);
      if s[0] == sep {
        assert ([[]] + rest)[1..] == rest;
      } else {
        var parts := [[s[0]] + rest[0]] + rest[1..];
        if |rest| == 1 {
          assert Join(parts, sep) == [s[0]] + rest[0];
        } else {
          assert parts[1..] == rest[1..];
          assert Join(rest, sep) == rest[0] + [sep] + Join(rest[1..], sep);
        }
      }
    }
  }

  /** Splitting `p + t` where `p` holds no separator extends the first part of `t`'s split. */
  lemma {:induction false} SplitPrepend(p: string, t: string, sep: char)
    requires sep !in p
    ensures Split(p + t, sep) == [p + Split(t, sep)[0]] + Split(t, sep)[1..]
    decreases |p|
  {
    if p != [] {
      SplitPrepend(p[1..], t, sep);
      assert (p + t)[1..] == p[1..] + t;
      assert (p + t)[0] == p[0];
      assert [p[0]] + (p[1..] + Split(t, sep)[0]) == p + Split(t, sep)[0];
    } else {
      var rest := Split(t, sep);
      assert p + t == t;
      assert p + rest[0] == rest[0];
      assert [rest[0]] + rest[1..] == rest;
    }
  }

  /** Splitting a join of separator-free parts gives back the parts. */
  lemma {:induction false} SplitJoin(parts: seq<string>, sep: char)
    requires |parts| >= 1
    requires forall p :: p in parts ==> sep !in p
    ensures Split(Join(parts, sep), sep) == parts
    decreases |parts|
  {
    if |parts| == 1 {
      SplitSingle(parts[0], sep);
    } else {
      var tail := Join(parts[1..], sep);
      SplitJoin(parts[1..], sep);
      SplitPrepend(parts[0], [sep] + tail, sep);
      assert ([sep] + tail)[1..] == tail;
      assert Split([sep] + tail, sep) == [[]] + parts[1..];
      assert parts[0] + [sep] + tail == parts[0] + ([sep] + tail);
      assert parts[0] + [] == parts[0];
      assert [parts[0]] + parts[1..] == parts;
    }
  }

  /** Every character of a join is the separator or a character of some part. */
  lemma {:induction false} JoinChars(parts: seq<string>, sep: char, c: char)
    requires c in Join(parts, sep)
    ensures c == sep || exists p :: p in parts && c in p
    decreases |parts|
  {
    if |parts| > 1 {
      var tail := Join(parts[1..], sep);
      if c in tail && c != sep {
        JoinChars(parts[1..], sep, c);
        var p :| p in parts[1..] && c in p;
        assert p in parts;
      } else if c != sep {
        assert Join(parts, sep) == parts[0] + [sep] + tail;
        assert c in parts[0];
      }
    }
  }

  /**
   * When `s` holds the separator, the last part of its split is the suffix of
   * `s` after the LAST separator.
   */
  lemma {:induction false} LastPartAfterLastSeparator(s: string, sep: char)
    requires sep in s
    ensures var p := Last(Split(s, sep));
      |p| < |s| && s[|s| - |p| - 1] == sep && p == s[|s| - |p|..] && sep !in p
    decreases |s|
  {
    var rest := Split(s[1..], sep);
    SplitPartsFree(s, sep);
    SplitPartsFree(s[1..], sep);
    assert Last(rest) in rest;
    if sep in s[1..] {
      LastPartAfterLastSeparator(s[1..], sep);
      SplitSingle(s[1..], sep);
      assert Last(Split(s, sep)) == Last(rest);
    } else {
      assert s[0] == sep by {
        assert s == [s[0]] + s[1..];
      }
      SplitSingle(s[1..], sep);
      assert Last(Split(s, sep)) == s[1..];
    }
  }

  /* ---------------------------------------------------------------------- */
  /* str.split() with no argument                                            */

  /** A token of `str.split()`: non-empty and free of whitespace. */
  predicate IsWord(w: string) {
    w != [] && forall k :: 0 <= k < |w| ==> !IsSpace(w[k])
  }

  /** The length of the run of non-space characters that starts `s`. */
  function TokenLength(s: string): (n: nat)
    ensures n <= |s|
    ensures forall k :: 0 <= k < n ==> !IsSpace(s[k])
    ensures n == |s| || IsSpace(s[n])
    decreases |s|
  {
    if s == [] || IsSpace(s[0]) then 0 else 1 + TokenLength(s[1..])
  }

  /** Python's `s.split()`: the maximal runs of non-space characters, in order. */
  function Words(s: string): (ws: seq<string>)
    ensures forall w :: w in ws ==> IsWord(w)
    decreases |s|
  {
    if s == [] then []
    else if IsSpace(s[0]) then Words(s[1..])
    else
      var n := TokenLength(s);
      assert n > 0;
      [s[..n]] + Words(s[n..])
  }

  /** A word followed by whitespace (or nothing) is the first token. */
  lemma WordsPrepend(w: string, t: string)
    requires IsWord(w)
    requires t == [] || IsSpace(t[0])
    ensures Words(w + t) == [w] + Words(t)
  {
    var s := w + t;
    TokenLengthExact(s, |w|);
    assert s[..|w|] == w;
    assert s[|w|..] == t;
  }

  /** The token length is the one position that ends a run of non-spaces. */
  lemma {:induction false} TokenLengthExact(s: string, m: nat)
    requires m <= |s|
    requires forall k :: 0 <= k < m ==> !IsSpace(s[k])
    requires m == |s| || IsSpace(s[m])
    ensures TokenLength(s) == m
    decreases m
  {
    if m > 0 {
      TokenLengthExact(s[1..], m - 1);
    }
  }

  /** `str.split()` of a single-space join of words gives back the words. */
  lemma {:induction false} WordsJoin(ws: seq<string>)
    requires forall w :: w in ws ==> IsWord(w)
    ensures Words(Join(ws, ' ')) == ws
    decreases |ws|
  {
    if |ws| == 1 {
      assert ws[0] + [] == ws[0];
      WordsPrepend(ws[0], []);
    } else if |ws| > 1 {
      var tail := Join(ws[1..], ' ');
      WordsJoin(ws[1..]);
      WordsPrepend(ws[0], [' '] + tail);
      assert ([' '] + tail)[1..] == tail;
      assert ws[0] + [' '] + tail == ws[0] + ([' '] + tail);
      assert [ws[0]] + ws[1..] == ws;
    }
  }

  /* ---------------------------------------------------------------------- */
  /* Digits, int() and decimal formatting                                    */

  predicate IsDigit(c: char) {
    '0' <= c <= '9'
  }

  /** Python's `str.isdigit()`, restricted to ASCII digits: non-empty and all digits. */
  predicate IsDigits(s: string) {
    s != [] && forall k :: 0 <= k < |s| ==> IsDigit(s[k])
  }

  function DigitChar(d: nat): (c: char)
    requires d < 10
    ensures IsDigit(c) && c as int - '0' as int == d
  {
    ('0' as int + d) as char
  }

  /** The value of a string of decimal digits (leading zeros allowed). */
  function DigitsValue(s: string): nat
    requires forall k :: 0 <= k < |s| ==> IsDigit(s[k])
    decreases |s|
  {
    if s == [] then 0
    else
      assert IsDigit(s[|s| - 1]);
      10 * DigitsValue(s[..|s| - 1]) + (s[|s| - 1] as int - '0' as int)
  }

  /** Python's `str(n)` for a non-negative integer: canonical decimal digits. */
  function Decimal(n: nat): string
    decreases n
  {
    if n < 10 then [DigitChar(n)] else Decimal(n / 10) + [DigitChar(n % 10)]
  }

  /** `str(n)` is a non-empty digit string worth `n`, one digit long exactly below 10, with no leading zero. */
  lemma {:induction false} DecimalSpec(n: nat)
    ensures IsDigits(Decimal(n)) && DigitsValue(Decimal(n)) == n
    ensures (n < 10) == (|Decimal(n)| == 1)
    ensures |Decimal(n)| > 1 ==> Decimal(n)[0] != '0'
    decreases n
  {
    if n >= 10 {
      DecimalSpec(n / 10);
      var r := Decimal(n);
      assert r[..|r| - 1] == Decimal(n / 10);
    }
  }

  /** Python's `str(n)` for any integer. */
  function IntString(n: int): string {
    if n < 0 then "-" + Decimal(-n) else Decimal(n)
  }

  /** Python's `f"{n:02d}"` for a non-negative integer: zero-padded to at least two digits. */
  function TwoDigits(n: nat): string {
    if n < 10 then "0" + Decimal(n) else Decimal(n)
  }

  /**
   * The padded counter is a digit string worth `n`: exactly two digits below
   * 100, and the plain decimal form from 100 on (no wrap-around, no truncation).
   */
  lemma TwoDigitsSpec(n: nat)
    ensures IsDigits(TwoDigits(n)) && DigitsValue(TwoDigits(n)) == n
    ensures |TwoDigits(n)| >= 2
    ensures n < 100 ==> |TwoDigits(n)| == 2
    ensures n >= 100 ==> TwoDigits(n) == Decimal(n)
  {
    var d := Decimal(n);
    DecimalSpec(n);
    if n < 10 {
      var r := "0" + d;
      assert r[..1] == "0";
    } else {
      if n >= 100 && |d| <= 2 {
        DigitsBound(d);
      }
      if n < 100 && |d| > 2 {
        LeadingDigitBound(d);
      }
    }
  }

  /** A string of k digits is worth less than 10^k. */
  lemma {:induction false} DigitsBound(s: string)
    requires forall k :: 0 <= k < |s| ==> IsDigit(s[k])
    ensures DigitsValue(s) < Pow10(|s|)
    decreases |s|
  {
    if s != [] {
      DigitsBound(s[..|s| - 1]);
    }
  }

  /** A string of k digits that does not start with '0' is worth at least 10^(k-1). */
  lemma {:induction false} LeadingDigitBound(s: string)
    requires IsDigits(s) && s[0] != '0'
    ensures DigitsValue(s) >= Pow10(|s| - 1)
    decreases |s|
  {
    if |s| > 1 {
      LeadingDigitBound(s[..|s| - 1]);
    }
  }

  function Pow10(k: nat): (p: nat)
    ensures p >= 1
  {
    if k == 0 then 1 else 10 * Pow10(k - 1)
  }

  /**
   * Python's `int(s)` on an already stripped string, restricted to an optional
   * sign followed by ASCII digits; anything else raises ValueError (None).
   */
  function ParseInt(s: string): (r: Option<int>)
    ensures r.Some? ==> s != []
  {
    if s == [] then None
    else if s[0] == '+' || s[0] == '-' then
      var digits := s[1..];
      if IsDigits(digits) then
        var v: int := DigitsValue(digits);
        Some(if s[0] == '-' then -v else v)
      else None
    else if IsDigits(s) then Some(DigitsValue(s))
    else None
  }

  /** `int(str(n))` gives back `n`. */
  lemma ParseIntString(n: int)
    ensures ParseInt(IntString(n)) == Some(n)
  {
    DecimalSpec(if n < 0 then -n else n);
    if n < 0 {
      assert IntString(n)[1..] == Decimal(-n);
    }
  }
}
