/** Readers for the pieces of text the visitor writes: quoted identifiers,
    single-quoted literals and `Integer#to_s` numbers. Each reader takes a
    text, consumes one piece from its front and returns what it read
    together with the rest of the text. Each comes with a round-trip lemma:
    reading what the visitor wrote gives back exactly what it rendered, and
    the text that follows is left alone. */
module SqlLexer {
  import opened Wrappers
  import opened SqlText

  /** `t` begins with `p`. */
  predicate StartsWith(t: string, p: string) {
    |p| <= |t| && t[..|p|] == p
  }

  lemma StartsWithConcat(p: string, x: string)
    ensures StartsWith(p + x, p) && (p + x)[|p|..] == x
  {
    assert (p + x)[..|p|] == p;
  }

  // ---------------------------------------------------------------------
  // identifiers: "`" name "`"

  /** The name up to the next backtick, and the text after that backtick. */
  function ReadName(t: string): (r: Option<(string, string)>)
    ensures r.Some? ==> '`' !in r.value.0 && |r.value.1| < |t|
    ensures r.Some? ==> t == r.value.0 + "`" + r.value.1
  {
    if t == [] then None
    else if t[0] == '`' then Some(([], t[1..]))
    else match ReadName(t[1..])
      case None => None
      case Some((name, rest)) => Some(([t[0]] + name, rest))
  }

  /** A backtick-free name followed by its closing backtick reads back as
      that name, whatever follows. */
  lemma {:induction false} ReadNameRoundTrip(name: string, rest: string)
    requires '`' !in name
    ensures ReadName(name + "`" + rest) == Some((name, rest))
  {
    var t := name + "`" + rest;
    if name == [] {
      assert t == "`" + rest;
    } else {
      assert t[0] == name[0];
      assert t[1..] == name[1..] + "`" + rest;
      assert '`' !in name[1..] by {
        forall i | 0 <= i < |name[1..]| ensures name[1..][i] != '`' {
          assert name[1..][i] == name[i + 1];
        }
      }
      ReadNameRoundTrip(name[1..], rest);
      assert [name[0]] + name[1..] == name;
    }
  }

  /** A quoted identifier: backtick, name, backtick. */
  function ReadQuotedName(t: string): (r: Option<(string, string)>)
    ensures r.Some? ==> t == Quote(r.value.0) + r.value.1
  {
    if t != [] && t[0] == '`' then
      match ReadName(t[1..])
      case None => None
      case Some((name, rest)) =>
        assert t == [t[0]] + t[1..];
        Some((name, rest))
    else None
  }

  lemma QuotedNameRoundTrip(name: string, rest: string)
    requires '`' !in name
    ensures ReadQuotedName(Quote(name) + rest) == Some((name, rest))
  {
    var t := Quote(name) + rest;
    assert t[1..] == name + "`" + rest;
    ReadNameRoundTrip(name, rest);
  }

  // ---------------------------------------------------------------------
  // string literals: "'" escaped-text "'"

  /** The body of a single-quoted literal, after its opening quote: a
      doubled quote stands for one quote, a lone quote ends the literal. */
  function ReadLiteralBody(t: string): (r: Option<(string, string)>)
    ensures r.Some? ==> |r.value.1| < |t|
    decreases |t|
  {
    if t == [] then None
    else if t[0] == '\'' then
      if |t| >= 2 && t[1] == '\'' then
        match ReadLiteralBody(t[2..])
        case None => None
        case Some((text, rest)) => Some(("'" + text, rest))
      else Some(([], t[1..]))
    else match ReadLiteralBody(t[1..])
      case None => None
      case Some((text, rest)) => Some(([t[0]] + text, rest))
  }

  /** Reading the escaping of `s` and the closing quote gives back `s`,
      provided the text after the literal does not start with a quote (the
      two quotes would read as one escaped quote). */
  lemma {:induction false} LiteralBodyRoundTrip(s: string, rest: string)
    requires rest == [] || rest[0] != '\''
    ensures ReadLiteralBody(Escape(s) + "'" + rest) == Some((s, rest))
  {
    var t := Escape(s) + "'" + rest;
    if s == [] {
      assert t == "'" + rest;
    } else {
      LiteralBodyRoundTrip(s[1..], rest);
      if s[0] == '\'' {
        assert t == "''" + (Escape(s[1..]) + "'" + rest);
        assert t[2..] == Escape(s[1..]) + "'" + rest;
      } else {
        assert t == [s[0]] + (Escape(s[1..]) + "'" + rest);
        assert t[1..] == Escape(s[1..]) + "'" + rest;
      }
      assert [s[0]] + s[1..] == s;
    }
  }

  /** A single-quoted literal: its unescaped value and what follows it. */
  function ReadStringLiteral(t: string): (r: Option<(string, string)>)
    ensures r.Some? ==> |r.value.1| < |t|
  {
    if t != [] && t[0] == '\'' then ReadLiteralBody(t[1..]) else None
  }

  lemma StringLiteralRoundTrip(s: string, rest: string)
    requires rest == [] || rest[0] != '\''
    ensures ReadStringLiteral(Quoted(Escape(s)) + rest) == Some((s, rest))
  {
    var e := Escape(s);
    var body := e + "'" + rest;
    var t := Quoted(e) + rest;
    assert t == "'" + body by {
      calc {
        t;
        "'" + e + "'" + rest;
        "'" + (e + "'") + rest;
        "'" + (e + "'" + rest);
      }
    }
    assert t[0] == '\'' && t[1..] == body;
    LiteralBodyRoundTrip(s, rest);
  }

  // ---------------------------------------------------------------------
  // numbers: Integer#to_s

  predicate AllDigits(d: string) {
    forall i :: 0 <= i < |d| ==> IsDigit(d[i])
  }

  /** The longest run of digits at the front of `t`. */
  function DigitRun(t: string): (d: string)
    ensures |d| <= |t| && d == t[..|d|] && AllDigits(d)
    ensures |d| < |t| ==> !IsDigit(t[|d|])
  {
    if t != [] && IsDigit(t[0]) then [t[0]] + DigitRun(t[1..]) else []
  }

  lemma {:induction false} DigitRunConcat(d: string, rest: string)
    requires AllDigits(d)
    requires rest == [] || !IsDigit(rest[0])
    ensures DigitRun(d + rest) == d
  {
    if d != [] {
      assert (d + rest)[0] == d[0];
      assert (d + rest)[1..] == d[1..] + rest;
      DigitRunConcat(d[1..], rest);
      assert [d[0]] + d[1..] == d;
    } else {
      assert d + rest == rest;
    }
  }

  /** The value of a run of decimal digits, most significant first. */
  function DecimalValue(d: string): nat
    requires AllDigits(d)
  {
    if d == [] then 0 else DecimalValue(d[..|d| - 1]) * 10 + (d[|d| - 1] as int - '0' as int)
  }

  /** Reading the digits `Integer#to_s` writes gives back the number. */
  lemma {:induction false} DecimalValueOfDigits(n: nat)
    ensures AllDigits(NatToString(n)) && DecimalValue(NatToString(n)) == n
  {
    NatToStringDigits(n);
    var d := NatToString(n);
    if n >= 10 {
      DecimalValueOfDigits(n / 10);
      assert d[..|d| - 1] == NatToString(n / 10);
    }
  }

  /** A natural number: a non-empty run of digits. */
  function ReadNatural(t: string): (r: Option<(nat, string)>)
    ensures r.Some? ==> |r.value.1| < |t|
  {
    var d := DigitRun(t);
    if d == [] then None else Some((DecimalValue(d), t[|d|..]))
  }

  /** An integer: an optional minus sign and a natural number. */
  function ReadInteger(t: string): (r: Option<(int, string)>)
    ensures r.Some? ==> |r.value.1| < |t|
  {
    if t != [] && t[0] == '-' then
      match ReadNatural(t[1..])
      case None => None
      case Some((k, rest)) => Some((-(k as int), rest))
    else ReadNatural(t)
  }

  /** `Integer#to_s` reads back as the same integer, provided no digit
      follows it. */
  lemma IntegerRoundTrip(i: int, rest: string)
    requires rest == [] || !IsDigit(rest[0])
    ensures ReadInteger(IntToString(i) + rest) == Some((i, rest))
  {
    var m: nat := if i < 0 then -i else i;
    var d := NatToString(m);
    DecimalValueOfDigits(m);
    NatToStringDigits(m);
    DigitRunConcat(d, rest);
    StartsWithConcat(d, rest);
    var t := IntToString(i) + rest;
    if i < 0 {
      assert t == "-" + (d + rest);
      assert t[1..] == d + rest;
    } else {
      assert t == d + rest;
      assert d[0] != '-';
    }
  }
}
