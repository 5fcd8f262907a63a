/** The string-level helpers of the visitor: identifier quoting, quote
    doubling in string literals, Ruby's Array#join and Integer#to_s. */
module SqlText {

  predicate IsDigit(c: char) {
    '0' <= c <= '9'
  }

  /** Number of occurrences of `c` in `s`. */
  function CountOf(c: char, s: string): (k: nat)
    ensures k <= |s|
    ensures c !in s ==> k == 0
  {
    if s == [] then 0 else (if s[0] == c then 1 else 0) + CountOf(c, s[1..])
  }

  lemma {:induction false} CountOfConcat(c: char, a: string, b: string)
    ensures CountOf(c, a + b) == CountOf(c, a) + CountOf(c, b)
  {
    if a == [] {
      assert a + b == b;
    } else {
      assert (a + b)[0] == a[0];
      assert (a + b)[1..] == a[1..] + b;
      CountOfConcat(c, a[1..], b);
    }
  }

  // ---------------------------------------------------------------------
  // quote: identifiers are wrapped in backticks, nothing inside is escaped

  function Quote(name: string): string {
    "`" + name + "`"
  }

  /** Quoting adds exactly one backtick at each end and leaves the name
      untouched in between: a backtick inside the name is not escaped. */
  lemma QuoteForm(name: string)
    ensures var r := Quote(name);
            |r| == |name| + 2 && r[0] == '`' && r[|r| - 1] == '`' && r[1..|r| - 1] == name
    ensures CountOf('`', Quote(name)) == CountOf('`', name) + 2
  {
    CountOfConcat('`', "`", name);
    CountOfConcat('`', "`" + name, "`");
  }

  /** The `'%s'` format template: the text between single quotes. */
  function Quoted(text: string): string {
    "'" + text + "'"
  }

  lemma QuotedForm(text: string)
    ensures var r := Quoted(text);
            |r| == |text| + 2 && r[0] == '\'' && r[|r| - 1] == '\'' && r[1..|r| - 1] == text
  {
  }

  // ---------------------------------------------------------------------
  // escape: every single quote is doubled, every other character is kept

  /** What `escape` does to one character. */
  function EscapeChar(c: char): string {
    if c == '\'' then "''" else [c]
  }

  function Escape(s: string): string {
    if s == [] then [] else EscapeChar(s[0]) + Escape(s[1..])
  }

  /** Escaping lengthens a string by one character per single quote. */
  lemma {:induction false} EscapeLength(s: string)
    ensures |Escape(s)| == |s| + CountOf('\'', s)
  {
    if s != [] {
      EscapeLength(s[1..]);
    }
  }

  /** Escaping works character by character: it distributes over
      concatenation, so `Escape(s)` is the concatenation of `EscapeChar(c)`
      for the characters `c` of `s`, in order. */
  lemma {:induction false} EscapeConcat(a: string, b: string)
    ensures Escape(a + b) == Escape(a) + Escape(b)
  {
    if a == [] {
      assert a + b == b;
    } else {
      assert (a + b)[0] == a[0];
      assert (a + b)[1..] == a[1..] + b;
      EscapeConcat(a[1..], b);
    }
  }

  /** Escaping a string that has no single quote changes nothing. */
  lemma {:induction false} EscapeQuoteFree(s: string)
    requires '\'' !in s
    ensures Escape(s) == s
  {
    if s != [] {
      assert '\'' !in s[1..] by {
        forall i | 0 <= i < |s[1..]| ensures s[1..][i] != '\'' {
          assert s[1..][i] == s[i + 1];
        }
      }
      EscapeQuoteFree(s[1..]);
    }
  }

  /** Every quote produced by escaping is doubled: the quote count is twice
      the original one. */
  lemma {:induction false} EscapeQuoteCount(s: string)
    ensures CountOf('\'', Escape(s)) == 2 * CountOf('\'', s)
  {
    if s != [] {
      EscapeQuoteCount(s[1..]);
      CountOfConcat('\'', EscapeChar(s[0]), Escape(s[1..]));
    }
  }

  /** A text in which every single quote is immediately followed by a second
      one, the pair counting as one escaped quote. Such a text cannot end a
      single-quoted SQL literal early. */
  predicate QuotesPaired(t: string)
    decreases |t|
  {
    if t == [] then true
    else if t[0] == '\'' then |t| >= 2 && t[1] == '\'' && QuotesPaired(t[2..])
    else QuotesPaired(t[1..])
  }

  /** The inverse of escaping: every doubled quote collapses to one quote. */
  function Unescape(t: string): (r: string)
    ensures |r| <= |t|
    decreases |t|
  {
    if t == [] then []
    else if |t| >= 2 && t[0] == '\'' && t[1] == '\'' then "'" + Unescape(t[2..])
    else [t[0]] + Unescape(t[1..])
  }

  lemma {:induction false} EscapeQuotesPaired(s: string)
    ensures QuotesPaired(Escape(s))
  {
    if s != [] {
      EscapeQuotesPaired(s[1..]);
      var t := Escape(s);
      if s[0] == '\'' {
        assert t == "''" + Escape(s[1..]);
        assert t[2..] == Escape(s[1..]);
      } else {
        assert t == [s[0]] + Escape(s[1..]);
        assert t[1..] == Escape(s[1..]);
      }
    }
  }

  /** Collapsing the doubled quotes of an escaped string gives back the
      original string. */
  lemma {:induction false} UnescapeEscape(s: string)
    ensures Unescape(Escape(s)) == s
  {
    if s != [] {
      UnescapeEscape(s[1..]);
      var t := Escape(s);
      if s[0] == '\'' {
        assert t == "''" + Escape(s[1..]);
        assert t[2..] == Escape(s[1..]);
      } else {
        assert t == [s[0]] + Escape(s[1..]);
        assert t[1..] == Escape(s[1..]);
      }
      assert s == [s[0]] + s[1..];
    }
  }

  /** Conversely, every quote-paired text is the escaping of exactly one
      string, its unescaping: `Escape` is a bijection from all strings onto
      the quote-paired texts. */
  lemma {:induction false} EscapeUnescape(t: string)
    requires QuotesPaired(t)
    ensures Escape(Unescape(t)) == t
    decreases |t|
  {
    if t != [] {
      if t[0] == '\'' {
        EscapeUnescape(t[2..]);
        assert Unescape(t) == "'" + Unescape(t[2..]);
        assert t == "''" + t[2..];
      } else {
        EscapeUnescape(t[1..]);
        assert t == [t[0]] + t[1..];
      }
    }
  }

  // ---------------------------------------------------------------------
  // Array#join

  /** Sum of the lengths of `parts`. */
  function TotalLength(parts: seq<string>): nat {
    if parts == [] then 0 else |parts[0]| + TotalLength(parts[1..])
  }

  /** Ruby's `parts.join(sep)`: the parts in order with `sep` between each
      two neighbours, and the empty string for no parts. */
  function Join(sep: string, parts: seq<string>): string {
    if |parts| == 0 then []
    else if |parts| == 1 then parts[0]
    else parts[0] + sep + Join(sep, parts[1..])
  }

  /** A join holds every part and exactly one separator between each two
      neighbours: nothing more. */
  lemma {:induction false} JoinLength(sep: string, parts: seq<string>)
    requires parts != []
    ensures |Join(sep, parts)| == TotalLength(parts) + |sep| * (|parts| - 1)
  {
    if |parts| > 1 {
      JoinLength(sep, parts[1..]);
      assert |sep| * (|parts| - 1) == |sep| + |sep| * (|parts| - 2);
    }
  }

  /** Joining two non-empty lists puts exactly one separator between them. */
  lemma {:induction false} JoinAppend(sep: string, a: seq<string>, b: seq<string>)
    requires a != [] && b != []
    ensures Join(sep, a + b) == Join(sep, a) + sep + Join(sep, b)
  {
    assert (a + b)[0] == a[0];
    if |a| == 1 {
      assert (a + b)[1..] == b;
    } else {
      assert (a + b)[1..] == a[1..] + b;
      JoinAppend(sep, a[1..], b);
    }
  }

  // ---------------------------------------------------------------------
  // Integer#to_s

  function DigitChar(d: nat): (c: char)
    requires d < 10
    ensures IsDigit(c) && c as int - '0' as int == d
  {
    (d + '0' as int) as char
  }

  /** Decimal digits of a natural number, most significant first. */
  function NatToString(n: nat): string {
    if n < 10 then [DigitChar(n)] else NatToString(n / 10) + [DigitChar(n % 10)]
  }

  /** The decimal text of a natural number is a non-empty run of digits
      without leading zeros, a single digit exactly below ten. */
  lemma {:induction false} NatToStringDigits(n: nat)
    ensures var r := NatToString(n);
            && |r| > 0
            && (forall i :: 0 <= i < |r| ==> IsDigit(r[i]))
            && (|r| > 1 ==> r[0] != '0')
            && (n < 10 <==> |r| == 1)
  {
    if n >= 10 {
      NatToStringDigits(n / 10);
    }
  }

  /** Ruby's `Integer#to_s`: a minus sign for negative values, followed by
      the decimal digits of the magnitude. */
  function IntToString(i: int): string {
    if i < 0 then "-" + NatToString(-i) else NatToString(i)
  }

  /** The text of an integer starts with a minus sign exactly when the
      integer is negative; everything after the sign is digits. */
  lemma IntToStringForm(i: int)
    ensures var r := IntToString(i);
            && |r| > 0
            && (r[0] == '-' <==> i < 0)
            && (i < 0 ==> r[1..] == NatToString(-i))
            && (i >= 0 ==> r == NatToString(i) && IsDigit(r[0]))
            && (forall k :: 0 < k < |r| ==> IsDigit(r[k]))
  {
    NatToStringDigits(if i < 0 then -i else i);
  }
}
