/** String operations the source takes from JavaScript: ASCII case mapping, `includes`, `join`, `split`,
    `parseInt` and the decimal form `String(n)` of a non-negative integer. */
module Text {
  import opened Wrappers
  import opened Seqs

  function LowerChar(c: char): char
  {
    if 'A' <= c <= 'Z' then (c as int + 32) as char else c
  }

  function UpperChar(c: char): char
  {
    if 'a' <= c <= 'z' then (c as int - 32) as char else c
  }

  /** `toLowerCase`, on the ASCII letters. */
  function ToLower(s: string): (r: string)
    ensures |r| == |s|
    ensures forall i :: 0 <= i < |s| ==> r[i] == LowerChar(s[i])
  {
    seq(|s|, i requires 0 <= i < |s| => LowerChar(s[i]))
  }

  /** `s.charAt(0).toUpperCase() + s.slice(1)`, on the ASCII letters. */
  function Capitalize(s: string): string
  {
    if s == [] then [] else [UpperChar(s[0])] + s[1..]
  }

  predicate StartsWith(s: string, prefix: string)
  {
    |prefix| <= |s| && s[..|prefix|] == prefix
  }

  /** `needle` occurs in `hay` starting at index `i`. */
  predicate OccursAt(hay: string, needle: string, i: int)
  {
    0 <= i && i + |needle| <= |hay| && hay[i..i + |needle|] == needle
  }

  /** `hay.includes(needle)`. */
  predicate Contains(hay: string, needle: string)
  {
    StartsWith(hay, needle) || (|hay| > 0 && Contains(hay[1..], needle))
  }

  /** `includes` finds exactly the positions where the needle occurs. */
  lemma {:induction false} ContainsIff(hay: string, needle: string)
    ensures Contains(hay, needle) <==> exists i :: OccursAt(hay, needle, i)
  {
    if StartsWith(hay, needle) {
      assert OccursAt(hay, needle, 0);
    } else if |hay| > 0 {
      ContainsIff(hay[1..], needle);
      if Contains(hay[1..], needle) {
        var i :| OccursAt(hay[1..], needle, i);
        assert hay[1..][i..i + |needle|] == hay[i + 1..i + 1 + |needle|];
        assert OccursAt(hay, needle, i + 1);
      }
      if exists i :: OccursAt(hay, needle, i) {
        var i :| OccursAt(hay, needle, i);
        assert i != 0;
        assert hay[1..][i - 1..i - 1 + |needle|] == hay[i..i + |needle|];
        assert OccursAt(hay[1..], needle, i - 1);
      }
    }
  }

  /** `parts.join(sep)`. Joining pieces free of a one-character separator and splitting on it gives the
      pieces back. */
  function Join(parts: seq<string>, sep: string): (r: string)
    ensures |parts| > 0 && |sep| == 1 && (forall i :: 0 <= i < |parts| ==> sep[0] !in parts[i]) ==>
      Split(r, sep[0]) == parts
  {
    if |parts| == 0 then ""
    else if |parts| == 1 then
      if |sep| == 1 && sep[0] !in parts[0] then SplitWithout(parts[0], sep[0]); parts[0] else parts[0]
    else
      var r := parts[0] + sep + Join(parts[1..], sep);
      if |sep| == 1 && (forall i :: 0 <= i < |parts| ==> sep[0] !in parts[i]) then
        SplitJoinStep(parts, sep[0], Join(parts[1..], sep));
        assert r == parts[0] + [sep[0]] + Join(parts[1..], sep);
        r
      else r
  }

  /** One step of the join round trip: the head piece, the separator, and the rest that splits back. */
  lemma SplitJoinStep(parts: seq<string>, c: char, rest: string)
    requires |parts| >= 2 && forall i :: 0 <= i < |parts| ==> c !in parts[i]
    requires (forall i :: 0 <= i < |parts[1..]| ==> c !in parts[1..][i]) ==> Split(rest, c) == parts[1..]
    ensures Split(parts[0] + [c] + rest, c) == parts
  {
    forall i | 0 <= i < |parts[1..]| ensures c !in parts[1..][i] {
      assert parts[1..][i] == parts[i + 1];
    }
    SplitConcat(parts[0], rest, c);
    SplitWithout(parts[0], c);
    assert parts == [parts[0]] + parts[1..];
  }

  /** `s.split(c)` for a one-character separator: the pieces between separators, empty ones included;
      no piece contains the separator. */
  function Split(s: string, c: char): (r: seq<string>)
    ensures |r| >= 1
    ensures forall i :: 0 <= i < |r| ==> c !in r[i]
  {
    if s == [] then [""]
    else if s[0] == c then [""] + Split(s[1..], c)
    else
      var rest := Split(s[1..], c);
      [[s[0]] + rest[0]] + rest[1..]
  }

  /** A string without the separator is one piece. */
  lemma {:induction false} SplitWithout(a: string, c: char)
    requires c !in a
    ensures Split(a, c) == [a]
  {
    if a != [] {
      SplitWithout(a[1..], c);
      assert a == [a[0]] + a[1..];
    }
  }

  /** Splitting distributes over a separator: `(a + c + b).split(c)` is `a.split(c)` then `b.split(c)`. */
  lemma {:induction false} SplitConcat(a: string, b: string, c: char)
    ensures Split(a + [c] + b, c) == Split(a, c) + Split(b, c)
  {
    if a == [] {
      SplitConcatEmpty(b, c);
    } else {
      SplitConcat(a[1..], b, c);
      if a[0] == c {
        SplitConcatSeparator(a, b, c);
      } else {
        SplitConcatHead(a, b, c);
      }
    }
  }

  lemma SplitConcatEmpty(b: string, c: char)
    ensures Split([] + [c] + b, c) == Split([], c) + Split(b, c)
  {
    var s := [] + [c] + b;
    assert s == [c] + b && s[1..] == b;
    SplitSeparator(s, c);
  }

  lemma SplitConcatSeparator(a: string, b: string, c: char)
    requires a != [] && a[0] == c
    requires Split(a[1..] + [c] + b, c) == Split(a[1..], c) + Split(b, c)
    ensures Split(a + [c] + b, c) == Split(a, c) + Split(b, c)
  {
    JoinTail(a, b, c);
    SplitSeparator(a, c);
    SplitSeparator(a + [c] + b, c);
    PrependPiece("", Split(a[1..], c), Split(b, c));
  }

  lemma PrependPiece(x: string, pa: seq<string>, pb: seq<string>)
    ensures [x] + (pa + pb) == [x] + pa + pb
  {
  }

  lemma SplitConcatHead(a: string, b: string, c: char)
    requires a != [] && a[0] != c
    requires Split(a[1..] + [c] + b, c) == Split(a[1..], c) + Split(b, c)
    ensures Split(a + [c] + b, c) == Split(a, c) + Split(b, c)
  {
    JoinTail(a, b, c);
    SplitHead(a, c);
    SplitHead(a + [c] + b, c);
    ExtendFirstPiece(a[0], Split(a[1..], c), Split(b, c));
  }

  lemma JoinTail(a: string, b: string, c: char)
    requires a != []
    ensures (a + [c] + b)[0] == a[0] && (a + [c] + b)[1..] == a[1..] + [c] + b
  {
  }

  /** Extending the first piece of a list of pieces before or after appending more pieces. */
  lemma ExtendFirstPiece(x: char, pa: seq<string>, pb: seq<string>)
    requires |pa| >= 1
    ensures [[x] + (pa + pb)[0]] + (pa + pb)[1..] == [[x] + pa[0]] + pa[1..] + pb
  {
    assert (pa + pb)[0] == pa[0];
    assert (pa + pb)[1..] == pa[1..] + pb;
  }

  /** Splitting a string that starts with the separator: an empty first piece. */
  lemma SplitSeparator(s: string, c: char)
    requires s != [] && s[0] == c
    ensures Split(s, c) == [""] + Split(s[1..], c)
  {
  }

  /** Splitting a string that starts with a non-separator character. */
  lemma SplitHead(s: string, c: char)
    requires s != [] && s[0] != c
    ensures Split(s, c) == [[s[0]] + Split(s[1..], c)[0]] + Split(s[1..], c)[1..]
  {
  }

  /** Three pieces joined by a separator none of them holds split back into those three pieces. */
  lemma SplitThree(a: string, b: string, d: string, c: char)
    ensures c !in a && c !in b && c !in d ==> Split(a + [c] + b + [c] + d, c) == [a, b, d]
  {
    if c !in a && c !in b && c !in d {
      var rest := b + [c] + d;
      assert a + [c] + b + [c] + d == a + [c] + rest;
      SplitConcat(a, rest, c);
      SplitConcat(b, d, c);
      SplitWithout(a, c);
      SplitWithout(b, c);
      SplitWithout(d, c);
    }
  }

  // ---------------------------------------------------------------------------------------------
  // parseInt(s) with no radix argument

  /** StrWhiteSpaceChar: the characters `parseInt` skips before the number. */
  predicate IsJsWhitespace(c: char)
  {
    // tab, line feed, vertical tab, form feed, carriage return, space
    c == '\t' || c == '\n' || c == '\U{B}' || c == '\U{C}' || c == '\r' || c == ' ' ||
    // the other space separators (category Zs), line and paragraph separators, byte order mark
    c == '\U{A0}' || c == '\U{1680}' || ('\U{2000}' <= c <= '\U{200A}') || c == '\U{2028}' ||
    c == '\U{2029}' || c == '\U{202F}' || c == '\U{205F}' || c == '\U{3000}' || c == '\U{FEFF}'
  }

  function TrimStart(s: string): (r: string)
    ensures |r| <= |s| && r == s[|s| - |r|..]
    ensures r == [] || !IsJsWhitespace(r[0])
  {
    if s != [] && IsJsWhitespace(s[0]) then TrimStart(s[1..]) else s
  }

  function DigitValue(c: char, radix: nat): Option<nat>
  {
    var d :=
      if '0' <= c <= '9' then c as int - '0' as int
      else if 'a' <= c <= 'z' then c as int - 'a' as int + 10
      else if 'A' <= c <= 'Z' then c as int - 'A' as int + 10
      else 36;
    if d < radix then Some(d) else None
  }

  /** Length of the longest prefix of `s` made of digits in `radix`. */
  function DigitRun(s: string, radix: nat): (n: nat)
    ensures n <= |s|
    ensures forall i :: 0 <= i < n ==> DigitValue(s[i], radix).Some?
    ensures n < |s| ==> DigitValue(s[n], radix).None?
  {
    if s != [] && DigitValue(s[0], radix).Some? then 1 + DigitRun(s[1..], radix) else 0
  }

  /** The value of a digit, 0 for a character that is not one. */
  function DigitOf(c: char, radix: nat): nat
  {
    match DigitValue(c, radix)
    case Some(d) => d
    case None => 0
  }

  /** The value of a run of digits, most significant first. */
  function DigitsValue(ds: string, radix: nat): nat
  {
    if ds == [] then 0
    else DigitsValue(ds[..|ds| - 1], radix) * radix + DigitOf(ds[|ds| - 1], radix)
  }

  /** `parseInt(s)`: `None` stands for NaN. Leading white space, one sign, a `0x`/`0X` prefix (radix 16)
      and then the longest run of digits; anything after the run is ignored. */
  function ParseInt(s: string): (r: Option<int>)
    ensures var t := TrimStart(s);
      var u := if t != [] && (t[0] == '-' || t[0] == '+') then t[1..] else t;
      && (r.Some? ==> u != [] && '0' <= u[0] <= '9')
      && (u != [] && '1' <= u[0] <= '9' ==> r.Some?)
      && (r.Some? && r.value < 0 ==> t[0] == '-')
  {
    ParseSigned(TrimStart(s))
  }

  /** An optional sign, then the magnitude. */
  function ParseSigned(t: string): (r: Option<int>)
    ensures var u := if t != [] && (t[0] == '-' || t[0] == '+') then t[1..] else t;
      && (r.Some? ==> u != [] && '0' <= u[0] <= '9')
      && (u != [] && '1' <= u[0] <= '9' ==> r.Some?)
      && (r.Some? && r.value < 0 ==> t[0] == '-')
  {
    if t != [] && t[0] == '-' then
      match ParseUnsigned(t[1..])
      case None => None
      case Some(v) => Some(-v)
    else if t != [] && t[0] == '+' then ParseUnsigned(t[1..])
    else ParseUnsigned(t)
  }

  /** An optional `0x`/`0X` prefix, then the longest run of digits in that radix. */
  function ParseUnsigned(u: string): (r: Option<int>)
    ensures r.Some? ==> u != [] && '0' <= u[0] <= '9' && r.value >= 0
    ensures u != [] && '1' <= u[0] <= '9' ==> r.Some?
  {
    var hex := |u| >= 2 && u[0] == '0' && (u[1] == 'x' || u[1] == 'X');
    var radix := if hex then 16 else 10;
    var body := if hex then u[2..] else u;
    var n := DigitRun(body, radix);
    if n == 0 then None else Some(DigitsValue(body[..n], radix))
  }

  function DigitChar(d: nat): char
    requires d < 10
  {
    ('0' as int + d) as char
  }

  /** `String(n)` for a non-negative integer. */
  function DecimalString(n: nat): (s: string)
    ensures |s| > 0
    ensures forall i :: 0 <= i < |s| ==> '0' <= s[i] <= '9'
    ensures |s| > 1 ==> s[0] != '0'
  {
    if n < 10 then [DigitChar(n)] else DecimalString(n / 10) + [DigitChar(n % 10)]
  }

  lemma {:induction false} DecimalValue(n: nat)
    ensures forall i :: 0 <= i < |DecimalString(n)| ==> DigitValue(DecimalString(n)[i], 10).Some?
    ensures DigitsValue(DecimalString(n), 10) == n
  {
    var s := DecimalString(n);
    if n >= 10 {
      DecimalValue(n / 10);
      assert s[..|s| - 1] == DecimalString(n / 10);
    }
  }

  /** A string made of digits is one digit run. */
  lemma {:induction false} DigitRunAll(s: string, radix: nat)
    requires forall i :: 0 <= i < |s| ==> DigitValue(s[i], radix).Some?
    ensures DigitRun(s, radix) == |s|
  {
    if s != [] {
      DigitRunAll(s[1..], radix);
    }
  }

  /** `parseInt` reads back what `String` writes: `parseInt(String(n)) === n`. */
  lemma ParseDecimal(n: nat)
    ensures ParseInt(DecimalString(n)) == Some(n)
  {
    var s := DecimalString(n);
    DecimalValue(n);
    DecimalUnsigned(s, n);
    UnsignedNumeral(s);
  }

  /** A numeral that starts with a digit has no white space or sign to skip. */
  lemma UnsignedNumeral(s: string)
    requires s != [] && '0' <= s[0] <= '9'
    ensures ParseInt(s) == ParseUnsigned(s)
  {
    assert !IsJsWhitespace(s[0]);
    assert TrimStart(s) == s;
  }

  /** A decimal numeral of `n` with no redundant leading zero reads as `n`. */
  lemma DecimalUnsigned(s: string, n: nat)
    requires |s| > 0
    requires |s| > 1 ==> s[0] != '0'
    requires forall i :: 0 <= i < |s| ==> DigitValue(s[i], 10).Some?
    requires DigitsValue(s, 10) == n
    ensures ParseUnsigned(s) == Some(n)
  {
    DigitRunAll(s, 10);
    assert s[..|s|] == s;
  }
}
