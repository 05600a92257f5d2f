/** Text in message buffers, one char an octet: decimal numbers, strtol, memmem, and a
    buffer that snprintf and memcpy fill until it overflows. */
module Text {
  import opened Seqs

  const NUL: char := '\0'
  const LONG_MAX: int := 0x7FFF_FFFF_FFFF_FFFF

  // A message of |s| octets lies in its buffer with a terminator behind it.
  function At(s: string, i: nat): char
  {
    if i < |s| then s[i] else NUL
  }

  predicate StartsWith(s: string, m: string)
  {
    |m| <= |s| && s[..|m|] == m
  }

  // ----- numbers -----

  predicate IsDigit(c: char)
  {
    '0' <= c <= '9'
  }

  predicate IsSpace(c: char)
  {
    c == ' ' || '\t' <= c <= '\r'
  }

  function DigitOf(k: nat): (c: char)
    requires k < 10
    ensures IsDigit(c) && DigitValue(c) == k
  {
    ('0' as int + k) as char
  }

  function DigitValue(c: char): nat
    requires IsDigit(c)
  {
    (c as int) - ('0' as int)
  }

  // What "%d" prints for a number that is not negative
  function Digits(n: nat): (s: string)
    ensures |s| >= 1 && forall i: nat | i < |s| :: IsDigit(s[i])
  {
    (if n < 10 then "" else Digits(n / 10)) + [DigitOf(n % 10)]
  }

  // The number of leading octets that satisfy p
  function RunLength(s: string, p: char -> bool): (k: nat)
    ensures k <= |s| && (forall i: nat | i < k :: p(s[i])) && (k < |s| ==> !p(s[k]))
  {
    if s != "" && p(s[0]) then
      var k := RunLength(s[1..], p);
      assert forall i: nat | 0 < i < k + 1 :: s[i] == s[1..][i - 1];
      k + 1
    else 0
  }

  function Value(ds: string): (n: nat)
    requires forall i: nat | i < |ds| :: IsDigit(ds[i])
  {
    if ds == "" then 0
    else 10 * Value(ds[..|ds| - 1]) + DigitValue(ds[|ds| - 1])
  }

  // What strtol(s, &q, 10) returns, and the number of octets that q lies behind s
  datatype Number = Number(value: int, end: nat)

  function Strtol(s: string): (r: Number)
    ensures r.end <= |s|
  {
    var w := RunLength(s, IsSpace);
    var sign := if w < |s| && (s[w] == '-' || s[w] == '+') then 1 else 0;
    var d := RunLength(s[w + sign..], IsDigit);
    if d == 0 then Number(0, 0)
    else
      var v: int := Value(s[w + sign..w + sign + d]);
      if At(s, w) == '-' then Number(if v > LONG_MAX + 1 then -LONG_MAX - 1 else -v, w + sign + d)
      else Number(if v > LONG_MAX then LONG_MAX else v, w + sign + d)
  }

  lemma {:induction false} RunLengthIs(s: string, p: char -> bool, k: nat)
    requires k <= |s| && (forall i: nat | i < k :: p(s[i])) && (k < |s| ==> !p(s[k]))
    ensures RunLength(s, p) == k
  {
    if k > 0 {
      RunLengthIs(s[1..], p, k - 1);
    }
  }

  lemma {:induction false} ValueOfDigits(n: nat)
    ensures Value(Digits(n)) == n
  {
    hide Value, Digits, DigitOf, DigitValue, IsDigit;
    DigitsStep(n);
    if n >= 10 {
      ValueOfDigits(n / 10);
      ValueStep(Digits(n / 10), DigitOf(n % 10));
    } else {
      NoValue();
      ValueStep("", DigitOf(n % 10));
    }
  }

  lemma DigitsStep(n: nat)
    ensures Digits(n) == (if n < 10 then "" else Digits(n / 10)) + [DigitOf(n % 10)]
  {}

  lemma NoValue()
    ensures Value("") == 0
  {}

  lemma ValueStep(ds: string, c: char)
    requires (forall i: nat | i < |ds| :: IsDigit(ds[i])) && IsDigit(c)
    ensures Value(ds + [c]) == 10 * Value(ds) + DigitValue(c)
  {
    hide DigitValue;
    assert (ds + [c])[..|ds + [c]| - 1] == ds;
  }

  // A printed number reads back, up to the first octet that is not a digit.
  lemma StrtolOfDigits(n: nat, rest: string)
    requires n <= LONG_MAX && !IsDigit(At(rest, 0))
    ensures Strtol(Digits(n) + rest) == Number(n, |Digits(n)|)
  {
    hide Value, Digits;
    var ds, s := Digits(n), Digits(n) + rest;
    assert s[0] == ds[0] && IsDigit(s[0]) && !IsSpace(s[0]);
    RunLengthIs(s, IsSpace, 0);
    assert s[0..] == s;
    assert |ds| < |s| ==> s[|ds|] == At(rest, 0);
    RunLengthIs(s, IsDigit, |ds|);
    assert s[0..|ds|] == ds;
    ValueOfDigits(n);
  }

  // strtol looks at nothing from the first colon on.
  lemma StrtolUpToColon(d: string, rest: string)
    requires ':' !in d
    ensures Strtol(d + (":" + rest)) == Strtol(d)
  {
    hide Value, RunLength, IsSpace, IsDigit;
    var s := d + (":" + rest);
    NoBlankOrDigit(':');
    RunUpToColon(d, rest, IsSpace);
    var w := RunLength(d, IsSpace);
    var sign := if w < |d| && (d[w] == '-' || d[w] == '+') then 1 else 0;
    assert s[w + sign..] == d[w + sign..] + (":" + rest);
    RunUpToColon(d[w + sign..], rest, IsDigit);
    var k := RunLength(d[w + sign..], IsDigit);
    assert s[w + sign..w + sign + k] == d[w + sign..w + sign + k];
    assert At(s, w) == '-' <==> At(d, w) == '-';
  }

  lemma NoBlankOrDigit(c: char)
    requires c == ':'
    ensures !IsSpace(c) && !IsDigit(c)
  {}

  lemma RunUpToColon(d: string, rest: string, p: char -> bool)
    requires !p(':')
    ensures RunLength(d + (":" + rest), p) == RunLength(d, p)
  {
    RunLengthIs(d + (":" + rest), p, RunLength(d, p));
  }

  lemma DigitsLength(n: nat)
    ensures n < 10 ==> |Digits(n)| == 1
    ensures 10 <= n < 100 ==> |Digits(n)| == 2
    ensures 100 <= n < 1000 ==> |Digits(n)| == 3
    ensures 1000 <= n < 10000 ==> |Digits(n)| == 4
  {}

  // A length, a colon, and that many octets
  function Field(x: string): string
  {
    Digits(|x|) + ":" + x
  }

  function PrintFields(xs: seq<string>): string
  {
    if xs == [] then "" else Field(xs[0]) + PrintFields(xs[1..])
  }

  lemma StrtolOfField(x: string, rest: string)
    requires |x| <= LONG_MAX
    ensures var s := Field(x) + rest; var n := Strtol(s);
      && n == Number(|x|, |Digits(|x|)|) && At(s, n.end) == ':'
      && n.end + 1 + |x| <= |s| && s[n.end + 1..n.end + 1 + |x|] == x && s[n.end + 1 + |x|..] == rest
  {
    hide Digits;
    var ds := Digits(|x|);
    assert Field(x) + rest == ds + (":" + x + rest);
    StrtolOfDigits(|x|, ":" + x + rest);
  }

  // ----- searching -----

  // What follows the first occurrence of m
  function After(s: string, m: string): (r: Option<string>)
    ensures r.Some? ==> |r.value| + |m| <= |s|
  {
    if |s| < |m| then None
    else if s[..|m|] == m then Some(s[|m|..])
    else if s == "" then None
    else After(s[1..], m)
  }

  predicate Occurs(s: string, m: string, i: nat)
  {
    i + |m| <= |s| && s[i..i + |m|] == m
  }

  lemma NoMatch(s: string, m: string, i: nat, k: nat)
    requires k < |m| && (i + k < |s| ==> s[i + k] != m[k])
    ensures !Occurs(s, m, i)
  {
    if i + |m| <= |s| {
      assert s[i..i + |m|][k] == s[i + k];
    }
  }

  lemma OccursInPart(x: string, y: string, m: string, i: nat)
    ensures i + |m| <= |x| ==> (Occurs(x + y, m, i) <==> Occurs(x, m, i))
    ensures |x| <= i ==> (Occurs(x + y, m, i) <==> Occurs(y, m, i - |x|))
  {
    if i + |m| <= |x| {
      assert x[i..i + |m|] == (x + y)[i..i + |m|];
    }
    if |x| <= i && i + |m| <= |x + y| {
      assert y[i - |x|..i - |x| + |m|] == (x + y)[i..i + |m|];
    }
  }

  lemma {:induction false} AfterNone(s: string, m: string)
    requires m != ""
    ensures After(s, m).None? <==> forall i: nat :: !Occurs(s, m, i)
  {
    if |s| >= |m| {
      assert s[0..|m|] == s[..|m|];
      if s[..|m|] == m {
        assert Occurs(s, m, 0);
      } else {
        AfterNone(s[1..], m);
        forall i: nat ensures Occurs(s[1..], m, i) <==> Occurs(s, m, i + 1) {
          if i + 1 + |m| <= |s| {
            assert s[i + 1..i + 1 + |m|] == s[1..][i..i + |m|];
          }
        }
        forall i: nat | After(s[1..], m).None? ensures !Occurs(s, m, i) {
          if i > 0 {
            assert !Occurs(s[1..], m, i - 1);
          }
        }
      }
    }
  }

  // dht_memmem
  method MemMem(s: string, m: string) returns (p: Option<nat>)
    ensures p.None? <==> After(s, m).None?
    ensures p.Some? ==> p.value + |m| <= |s| && After(s, m) == Some(s[p.value + |m|..])
  {
    if |m| > |s| {
      return None;
    }
    assert s[0..] == s;
    var i := 0;
    while i <= |s| - |m|
      invariant i <= |s| - |m| + 1
      invariant After(s, m) == if i <= |s| then After(s[i..], m) else None
    {
      AfterStep(s, i, m);
      if s[i..i + |m|] == m {
        return Some(i);
      }
      i := i + 1;
    }
    p := None;
  }

  lemma AfterStep(s: string, i: nat, m: string)
    requires i + |m| <= |s|
    ensures After(s[i..], m) ==
      if s[i..i + |m|] == m then Some(s[i + |m|..])
      else if i == |s| then None
      else After(s[i + 1..], m)
  {
    assert s[i..][..|m|] == s[i..i + |m|];
    if s[i..i + |m|] == m {
      assert s[i..][|m|..] == s[i + |m|..];
    } else if i < |s| {
      assert s[i..][1..] == s[i + 1..];
    }
  }

  predicate EndsWith(s: string, m: string)
  {
    |m| <= |s| && s[|s| - |m|..] == m
  }

  // Up to the next colon a marker a:b can only lie across that colon.
  lemma {:induction false} AfterColon(x: string, rest: string, a: string, b: string)
    requires ':' !in x && ':' !in a
    ensures After(x + ":" + rest, a + ":" + b) ==
      if EndsWith(x, a) && StartsWith(rest, b) then Some(rest[|b|..]) else After(rest, a + ":" + b)
  {
    var s, m := x + ":" + rest, a + ":" + b;
    MatchHere(x, rest, a, b);
    if StartsWith(s, m) {
      MatchAtColon(x, rest, a, b);
    } else if x == "" {
      assert s[1..] == rest;
    } else {
      assert s[1..] == x[1..] + ":" + rest;
      AfterColon(x[1..], rest, a, b);
      assert |a| < |x| ==> x[1..][|x| - 1 - |a|..] == x[|x| - |a|..];
    }
  }

  lemma MatchHere(x: string, rest: string, a: string, b: string)
    ensures x == a && StartsWith(rest, b) ==> StartsWith(x + ":" + rest, a + ":" + b)
  {
    if x == a && StartsWith(rest, b) {
      assert (x + ":" + rest)[..|a + ":" + b|] == x + ":" + rest[..|b|];
    }
  }

  lemma MatchAtColon(x: string, rest: string, a: string, b: string)
    requires ':' !in x && ':' !in a
    requires StartsWith(x + ":" + rest, a + ":" + b)
    ensures x == a && StartsWith(rest, b) && (x + ":" + rest)[|a + ":" + b|..] == rest[|b|..]
  {
    var s, m := x + ":" + rest, a + ":" + b;
    assert m == s[..|m|];
    assert m[|a|] == s[|a|] == ':';
    assert forall k: nat | k < |x| :: s[k] == x[k];
    assert forall k: nat | k < |a| :: s[k] == m[k] == a[k];
    assert s[|x|] == ':';
    assert |x| == |a|;
    assert s[..|m|][|a| + 1..] == rest[..|b|] && m[|a| + 1..] == b;
  }

  // A marker no proper beginning of which is also its end
  predicate Unbordered(m: string)
  {
    forall d: nat | 0 < d < |m| :: m[d..] != m[..|m| - d]
  }

  lemma UnborderedIf(m: string)
    requires forall d: nat | 0 < d < |m| :: m[d] != m[0] || (d + 1 < |m| && m[d + 1] != m[1])
    ensures Unbordered(m)
  {
    forall d: nat | 0 < d < |m| ensures m[d..] != m[..|m| - d] {
      assert m[d..][0] == m[d] && m[..|m| - d][0] == m[0];
      if d + 1 < |m| {
        assert m[d..][1] == m[d + 1] && m[..|m| - d][1] == m[1];
      }
    }
  }

  lemma AfterTooShort(s: string, m: string)
    requires |s| < |m|
    ensures After(s, m).None?
  {}

  // What is found in a text is found there whatever follows it.
  lemma {:induction false} AfterExtends(x: string, y: string, m: string)
    requires After(x, m).Some?
    ensures After(x + y, m) == Some(After(x, m).value + y)
  {
    assert (x + y)[..|m|] == x[..|m|];
    if x[..|m|] == m {
      assert (x + y)[|m|..] == x[|m|..] + y;
    } else {
      AfterExtends(x[1..], y, m);
      assert (x + y)[1..] == x[1..] + y;
    }
  }

  // Such a marker is found where it was put, unless it occurs before.
  lemma {:induction false} AfterMarker(x: string, m: string, rest: string)
    requires m != "" && Unbordered(m) && After(x, m).None?
    ensures After(x + m + rest, m) == Some(rest)
  {
    var s := x + m + rest;
    if x == "" {
      assert s[..|m|] == m && s[|m|..] == rest;
    } else {
      AfterNoneIn(x, m);
      AfterMarker(x[1..], m, rest);
      assert s[1..] == x[1..] + m + rest;
      NoMatchBefore(x, m, rest);
    }
  }

  // Any marker is found where it was put, unless it begins before.
  lemma {:induction false} AfterMarkerAt(x: string, m: string, rest: string)
    requires m != "" && After(x + m[..|m| - 1], m).None?
    ensures After(x + m + rest, m) == Some(rest)
  {
    var s := x + m + rest;
    if x == "" {
      assert s[..|m|] == m && s[|m|..] == rest;
    } else {
      var y := x + m[..|m| - 1];
      assert y[1..] == x[1..] + m[..|m| - 1];
      AfterNoneIn(y, m);
      AfterMarkerAt(x[1..], m, rest);
      assert s[1..] == x[1..] + m + rest;
      assert s[..|m|] == y[..|m|];
    }
  }

  lemma NoMatchBefore(x: string, m: string, rest: string)
    requires x != "" && Unbordered(m) && (|m| <= |x| ==> x[..|m|] != m)
    ensures (x + m + rest)[..|m|] != m
  {
    var s := x + m + rest;
    if |m| <= |x| {
      assert x[..|m|] == s[..|m|];
    } else {
      assert s[..|m|][|x|..] == m[..|m| - |x|];
    }
  }

  lemma AfterNoneIn(x: string, m: string)
    requires After(x, m).None? && x != "" && m != ""
    ensures After(x[1..], m).None?
    ensures |m| <= |x| ==> x[..|m|] != m
  {}

  // ----- filling a buffer -----

  // What goes out of a buffer of that size: nothing if the text does not fit; and a text
  // that fits only without snprintf's terminator loses its last octet to it.
  function Transmitted(size: nat, text: string): Option<string>
  {
    if |text| > size then None
    else if |text| == size && size > 0 then Some(text[..size - 1] + [NUL])
    else Some(text)
  }

  class Packet {
    const buf: array<char>
    var i: nat
    var failed: bool
    ghost var text: string           // all that was to be put in

    ghost predicate Valid()
      reads this, buf
    {
      && i <= buf.Length
      && (failed <==> |text| > buf.Length)
      && (!failed ==>
            && i == |text|
            && (forall k: nat | k < i && k + 1 < buf.Length :: buf[k] == text[k])
            && (i == buf.Length > 0 ==> buf[i - 1] == text[i - 1] || buf[i - 1] == NUL))
    }

    constructor (size: nat)
      ensures Valid() && text == "" && buf.Length == size && fresh(buf)
    {
      buf, i, failed, text := new char[size], 0, false, "";
    }

    // rc = snprintf(buf + i, size - i, ...) and INC
    method Print(s: string)
      requires Valid()
      modifies this, buf
      ensures Valid() && text == old(text) + s
      ensures s != "" && !failed && i == buf.Length ==> buf[i - 1] == NUL
    {
      if !failed {
        if i < buf.Length {
          var n := if |s| < buf.Length - i then |s| else buf.Length - i - 1;
          forall k: nat | k < n { buf[i + k] := s[k]; }
          buf[i + n] := NUL;
        }
        if i + |s| > buf.Length {
          failed := true;
        } else {
          i := i + |s|;
        }
      }
      text := text + s;
    }

    // COPY
    method Copy(s: string)
      requires Valid()
      modifies this, buf
      ensures Valid() && text == old(text) + s
    {
      if !failed {
        if i + |s| > buf.Length {
          failed := true;
        } else {
          forall k: nat | k < |s| { buf[i + k] := s[k]; }
          i := i + |s|;
        }
      }
      text := text + s;
    }

    // What is handed to dht_send after a last Print
    method Send() returns (r: Option<string>)
      requires Valid() && (!failed && i == buf.Length > 0 ==> buf[i - 1] == NUL)
      ensures r == Transmitted(buf.Length, text)
    {
      if failed {
        return None;
      }
      assert buf[..i] == Transmitted(buf.Length, text).value;
      r := Some(buf[..i]);
    }
  }
}
