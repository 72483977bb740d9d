/**
 * The two string primitives the component relies on, written out over
 * `seq<char>`: `String.prototype.trim` (used when a team name is added or
 * edited) and the global `parseInt` with no radix (used for score inputs).
 */
module Text {
  import opened Wrappers

  /** The characters `trim` and `parseInt` skip: ECMAScript's WhiteSpace
      (tab, vertical tab, form feed, space, no-break space, byte order mark
      and the Unicode space separators) and LineTerminator characters. */
  predicate IsSpace(c: char) {
    || c == '\t' || c == '\n' || c == '\U{B}' || c == '\U{C}' || c == '\r'
    || c == ' ' || c == '\U{A0}' || c == '\U{1680}'
    || ('\U{2000}' <= c && c <= '\U{200A}')
    || c == '\U{2028}' || c == '\U{2029}' || c == '\U{202F}' || c == '\U{205F}'
    || c == '\U{3000}' || c == '\U{FEFF}'
  }

  /** The number of white-space characters `s` starts with. */
  function LeadingSpaces(s: string): (k: nat)
    ensures k <= |s|
    ensures forall i :: 0 <= i < k ==> IsSpace(s[i])
    ensures k < |s| ==> !IsSpace(s[k])
  {
    if |s| > 0 && IsSpace(s[0]) then 1 + LeadingSpaces(s[1..]) else 0
  }

  /** The length of `s` without the white space it ends with. */
  function TrailingStart(s: string): (k: nat)
    ensures k <= |s|
    ensures forall i :: k <= i < |s| ==> IsSpace(s[i])
    ensures k > 0 ==> !IsSpace(s[k - 1])
  {
    if |s| > 0 && IsSpace(s[|s| - 1]) then TrailingStart(s[..|s| - 1]) else |s|
  }

  /** Drops the leading white space. */
  function TrimStart(s: string): string
  {
    s[LeadingSpaces(s)..]
  }

  /** Drops the trailing white space. */
  function TrimEnd(s: string): string
  {
    s[..TrailingStart(s)]
  }

  /** `s.trim()`: the longest infix of `s` that neither starts nor ends with
      white space, obtained by removing only white space. */
  function Trim(s: string): string
  {
    TrimEnd(TrimStart(s))
  }

  /** What `trim` returns is the infix of `s` between its leading white space
      and its trailing white space. */
  lemma {:induction false} TrimIsInfix(s: string)
    ensures var i := LeadingSpaces(s);
      && i + |Trim(s)| <= |s|
      && Trim(s) == s[i..i + |Trim(s)|]
      && forall k :: i + |Trim(s)| <= k < |s| ==> IsSpace(s[k])
  {
    var i := LeadingSpaces(s);
    var t := s[i..];
    var j := TrailingStart(t);
    assert Trim(s) == t[..j];
    assert t[..j] == s[i..i + j];
    forall k | i + j <= k < |s| ensures IsSpace(s[k]) {
      assert s[k] == t[k - i];
    }
  }

  /** A name trims to nothing exactly when it is all white space, which is
      when `addTeam` and `saveTeamEdit` refuse it. */
  lemma {:induction false} TrimBlank(s: string)
    ensures Trim(s) == [] <==> forall k :: 0 <= k < |s| ==> IsSpace(s[k])
  {
    TrimIsInfix(s);
    if forall k :: 0 <= k < |s| ==> IsSpace(s[k]) {
      assert LeadingSpaces(s) == |s|;
    }
  }

  /** What `trim` returns neither starts nor ends with white space. */
  lemma {:induction false} TrimEdges(s: string)
    ensures Trim(s) == [] || (!IsSpace(Trim(s)[0]) && !IsSpace(Trim(s)[|Trim(s)| - 1]))
  {
    var t := TrimStart(s);
    var r := TrimEnd(t);
    if r != [] {
      assert r[0] == t[0];
      assert r[|r| - 1] == t[TrailingStart(t) - 1];
    }
  }

  /** A string that starts with no white space is left as it is by
      `trimStart`. */
  lemma TrimStartKeeps(s: string)
    requires s == [] || !IsSpace(s[0])
    ensures TrimStart(s) == s
  {
  }

  /** A string that ends with no white space is left as it is by `trimEnd`. */
  lemma TrimEndKeeps(s: string)
    requires s == [] || !IsSpace(s[|s| - 1])
    ensures TrimEnd(s) == s
  {
  }

  /** Trimming twice is trimming once. */
  lemma {:induction false} TrimIdempotent(s: string)
    ensures Trim(Trim(s)) == Trim(s)
  {
    var r := Trim(s);
    TrimEdges(s);
    TrimStartKeeps(r);
    TrimEndKeeps(r);
  }

  /** The value of a digit character in bases up to 36 (36 for a non-digit). */
  function DigitValue(c: char): (v: nat)
    ensures v <= 36
  {
    if '0' <= c <= '9' then c as nat - '0' as nat
    else if 'a' <= c <= 'z' then c as nat - 'a' as nat + 10
    else if 'A' <= c <= 'Z' then c as nat - 'A' as nat + 10
    else 36
  }

  predicate IsDigit(c: char, radix: nat) {
    DigitValue(c) < radix
  }

  /** The length of the longest prefix of `s` made of digits of `radix`. */
  function DigitPrefix(s: string, radix: nat): (k: nat)
    ensures k <= |s|
    ensures forall i :: 0 <= i < k ==> IsDigit(s[i], radix)
    ensures k < |s| ==> !IsDigit(s[k], radix)
  {
    if |s| > 0 && IsDigit(s[0], radix) then 1 + DigitPrefix(s[1..], radix) else 0
  }

  /** The number a digit string denotes, most significant digit first. */
  function DigitsValue(ds: string, radix: nat): nat
  {
    if ds == [] then 0
    else DigitsValue(ds[..|ds| - 1], radix) * radix + DigitValue(ds[|ds| - 1])
  }

  /** `parseInt(s)`: skip leading white space, read an optional sign, read a
      hexadecimal number after `0x`/`0X` or else a decimal one, and stop at
      the first character that is not a digit. No digit at all is `NaN`,
      modelled as `None`. */
  function ParseInt(s: string): Option<int>
  {
    var t := TrimStart(s);
    if |t| > 0 && t[0] == '-' then
      match ParseMagnitude(t[1..])
      case Some(v) => Some(-v)
      case None => None
    else if |t| > 0 && t[0] == '+' then ParseMagnitude(t[1..])
    else ParseMagnitude(t)
  }

  /** The unsigned part: hexadecimal after `0x` or `0X`, decimal otherwise. */
  function ParseMagnitude(u: string): Option<int>
  {
    if |u| >= 2 && u[0] == '0' && (u[1] == 'x' || u[1] == 'X') then ReadDigits(u[2..], 16)
    else ReadDigits(u, 10)
  }

  /** The value of the longest digit prefix, `None` when there is none. */
  function ReadDigits(body: string, radix: nat): Option<int>
  {
    var k := DigitPrefix(body, radix);
    if k == 0 then None else Some(DigitsValue(body[..k], radix))
  }

  /** `parseInt(raw) || 0`: a score; `NaN` (and `0`) become 0. */
  function ScoreValue(raw: string): int
  {
    match ParseInt(raw)
    case Some(v) => v
    case None => 0
  }

  /** The decimal digits of `n`, as `String(n)` writes them. */
  function NatToDecimal(n: nat): (r: string)
    ensures |r| >= 1
    ensures forall i :: 0 <= i < |r| ==> IsDigit(r[i], 10)
    ensures r[0] == '0' ==> n == 0 && |r| == 1
  {
    if n < 10 then ['0' + n as char]
    else NatToDecimal(n / 10) + ['0' + (n % 10) as char]
  }

  /** `String(n)` for an integer `n`: what a numeric input field holds. */
  function IntToDecimal(n: int): string
  {
    if n < 0 then "-" + NatToDecimal(-n) else NatToDecimal(n)
  }

  lemma {:induction false} DecimalValue(n: nat)
    ensures DigitsValue(NatToDecimal(n), 10) == n
  {
    if n >= 10 {
      var r := NatToDecimal(n);
      assert r[..|r| - 1] == NatToDecimal(n / 10);
      DecimalValue(n / 10);
    }
  }

  /** A string made only of digits is its own longest digit prefix. */
  lemma DigitPrefixOfDigits(s: string, radix: nat)
    requires forall i :: 0 <= i < |s| ==> IsDigit(s[i], radix)
    ensures DigitPrefix(s, radix) == |s|
  {
  }

  /** Reading back the digits of `String(n)` gives `n`. */
  lemma ReadDecimal(n: nat)
    ensures ParseMagnitude(NatToDecimal(n)) == Some(n)
  {
    var d := NatToDecimal(n);
    DigitPrefixOfDigits(d, 10);
    assert d[..|d|] == d;
    DecimalValue(n);
  }

  /** Reading back what `String(n)` wrote gives `n`: a score typed as an
      integer is stored as that integer. */
  lemma ParseIntOfDecimal(n: int)
    ensures ParseInt(IntToDecimal(n)) == Some(n)
  {
    if n < 0 {
      var d := NatToDecimal(-n);
      var s := "-" + d;
      TrimStartKeeps(s);
      assert s[1..] == d;
      ReadDecimal(-n);
    } else {
      var d := NatToDecimal(n);
      TrimStartKeeps(d);
      ReadDecimal(n);
    }
  }

  /** A score typed as an integer is stored as that integer. */
  lemma ScoreOfDecimal(n: int)
    ensures ScoreValue(IntToDecimal(n)) == n
  {
    ParseIntOfDecimal(n);
  }

  /** Input that holds no decimal digit at all is stored as 0: `parseInt`
      yields `NaN` and `|| 0` replaces it. */
  lemma ScoreWithoutDigits(raw: string)
    requires forall i :: 0 <= i < |raw| ==> !IsDigit(raw[i], 10)
    ensures ParseInt(raw).None?
    ensures ScoreValue(raw) == 0
  {
    var t := TrimStart(raw);
    assert forall i :: 0 <= i < |t| ==> t[i] == raw[|raw| - |t| + i];
    var u := if |t| > 0 && (t[0] == '-' || t[0] == '+') then t[1..] else t;
    assert forall i :: 0 <= i < |u| ==> !IsDigit(u[i], 10);
    assert ParseMagnitude(u) == None;
  }
}
