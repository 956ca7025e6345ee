/** The JavaScript string built-ins the actions rely on: `trim`,
    `toUpperCase`, `split` on one separator character, `join`, the list idiom
    `.split(sep).map((s) => s.trim()).filter(Boolean)`, and `Number(...)`. */
module Text {

  /** The characters that `String.prototype.trim` strips and that the regular
      expression class `\s` matches: ECMAScript WhiteSpace and LineTerminator. */
  predicate IsWhitespace(c: char)
  {
    || c == ' ' || c == '\t' || c == '\n' || c == '\r'
    || c == '\U{000B}' || c == '\U{000C}' || c == '\U{00A0}' || c == '\U{1680}'
    || ('\U{2000}' <= c <= '\U{200A}')
    || c == '\U{2028}' || c == '\U{2029}' || c == '\U{202F}' || c == '\U{205F}'
    || c == '\U{3000}' || c == '\U{FEFF}'
  }

  /** Neither end of `s` is white space. */
  predicate IsTrimmed(s: string)
  {
    s == [] || (!IsWhitespace(s[0]) && !IsWhitespace(s[|s| - 1]))
  }

  /** How many white-space characters `s` starts with. */
  function LeadingSpace(s: string): (n: nat)
    ensures n <= |s|
    ensures forall i :: 0 <= i < n ==> IsWhitespace(s[i])
    ensures n == |s| || !IsWhitespace(s[n])
  {
    if s != [] && IsWhitespace(s[0]) then
      var n := 1 + LeadingSpace(s[1..]);
      assert forall i :: 1 <= i < n ==> s[i] == s[1..][i - 1];
      n
    else 0
  }

  /** Where the white space that `s` ends with begins. */
  function TrailingSpace(s: string): (n: nat)
    ensures n <= |s|
    ensures forall i :: n <= i < |s| ==> IsWhitespace(s[i])
    ensures n == 0 || !IsWhitespace(s[n - 1])
  {
    if s != [] && IsWhitespace(s[|s| - 1]) then TrailingSpace(s[..|s| - 1]) else |s|
  }

  /** Leading white space removed. */
  function TrimStart(s: string): (r: string)
    ensures |r| <= |s| && r == s[|s| - |r|..]
    ensures r == [] || !IsWhitespace(r[0])
    ensures forall i :: 0 <= i < |s| - |r| ==> IsWhitespace(s[i])
  {
    s[LeadingSpace(s)..]
  }

  /** Trailing white space removed. */
  function TrimEnd(s: string): (r: string)
    ensures |r| <= |s| && r == s[..|r|]
    ensures r == [] || !IsWhitespace(r[|r| - 1])
    ensures forall i :: |r| <= i < |s| ==> IsWhitespace(s[i])
  {
    s[..TrailingSpace(s)]
  }

  /** `s.trim()`. */
  function Trim(s: string): (r: string)
    ensures IsTrimmed(r)
    ensures forall c :: c in r ==> c in s
  {
    var t := TrimStart(s);
    var r := TrimEnd(t);
    assert forall c :: c in r ==> c in s by {
      forall c | c in r ensures c in s {
        var k :| 0 <= k < |r| && r[k] == c;
        assert t[k] == c;
        assert s[|s| - |t| + k] == c;
      }
    }
    r
  }

  /** A string with no white space at either end is its own trim. */
  lemma TrimOfTrimmed(s: string)
    requires IsTrimmed(s)
    ensures Trim(s) == s
  {
  }

  /** Trimming drops only white space, from the two ends: what remains is a
      contiguous part of `s`. */
  lemma TrimIsInfix(s: string)
    ensures exists i, j ::
              && 0 <= i <= j <= |s| && Trim(s) == s[i..j]
              && (forall k :: 0 <= k < i ==> IsWhitespace(s[k]))
              && (forall k :: j <= k < |s| ==> IsWhitespace(s[k]))
  {
    var t := TrimStart(s);
    var i := |s| - |t|;
    var j := i + |TrimEnd(t)|;
    assert Trim(s) == s[i..j];
    assert forall k :: j <= k < |s| ==> IsWhitespace(s[k]) by {
      forall k | j <= k < |s| ensures IsWhitespace(s[k]) {
        assert s[k] == t[k - i];
      }
    }
  }

  /** ASCII `toUpperCase` of one character. */
  function UpperChar(c: char): (u: char)
  {
    if 'a' <= c <= 'z' then (c as int - 32) as char else c
  }

  /** `s.toUpperCase()`, on the ASCII letters. */
  function ToUpper(s: string): (r: string)
    ensures |r| == |s|
    ensures forall i :: 0 <= i < |s| ==> r[i] == UpperChar(s[i])
  {
    seq(|s|, i requires 0 <= i < |s| => UpperChar(s[i]))
  }

  /** The promo-code normal form: `code.trim().toUpperCase()`. */
  function Normalize(code: string): (r: string)
    ensures |r| == |Trim(code)|
    ensures r == [] <==> Trim(code) == []
  {
    ToUpper(Trim(code))
  }

  /** Upper-casing changes neither white space nor an upper-cased character. */
  lemma UpperCharFacts(c: char)
    ensures IsWhitespace(UpperChar(c)) <==> IsWhitespace(c)
    ensures UpperChar(UpperChar(c)) == UpperChar(c)
  {
  }

  /** A code in normal form: trimmed and with no lower-case letter. */
  predicate IsNormal(code: string)
  {
    IsTrimmed(code) && forall i :: 0 <= i < |code| ==> UpperChar(code[i]) == code[i]
  }

  /** The normal form is in normal form. */
  lemma NormalizeIsNormal(code: string)
    ensures IsNormal(Normalize(code))
  {
    var t := Trim(code);
    var u := ToUpper(t);
    assert IsTrimmed(u) by {
      if u != [] {
        UpperCharFacts(t[0]);
        UpperCharFacts(t[|t| - 1]);
      }
    }
    forall i | 0 <= i < |u|
      ensures UpperChar(u[i]) == u[i]
    {
      UpperCharFacts(t[i]);
    }
  }

  /** A code in normal form is its own normal form. */
  lemma NormalizeOfNormal(code: string)
    requires IsNormal(code)
    ensures Normalize(code) == code
  {
    TrimOfTrimmed(code);
  }

  /** The normal form is its own normal form. */
  lemma NormalizeIdempotent(code: string)
    ensures Normalize(Normalize(code)) == Normalize(code)
  {
    NormalizeIsNormal(code);
    NormalizeOfNormal(Normalize(code));
  }

  /** `s.split(sep)` for a one-character separator: the pieces between the
      separators, in order; `''.split(sep)` is `['']`. */
  function Split(s: string, sep: char): (parts: seq<string>)
    ensures |parts| >= 1
  {
    if s == [] then [[]] else Glue(s[0], Split(s[1..], sep), sep)
  }

  /** The pieces of `[c] + t` from those of `t`: a separator opens a new,
      empty first piece; any other character joins the first piece. */
  function Glue(c: char, parts: seq<string>, sep: char): (r: seq<string>)
    requires |parts| >= 1
    ensures |r| >= 1
  {
    if c == sep then [[]] + parts else [[c] + parts[0]] + parts[1..]
  }

  lemma SplitCons(c: char, t: string, sep: char)
    ensures Split([c] + t, sep) == Glue(c, Split(t, sep), sep)
  {
    assert ([c] + t)[1..] == t;
  }

  lemma GlueAppend(c: char, p: seq<string>, q: seq<string>, sep: char)
    requires |p| >= 1
    ensures Glue(c, p + q, sep) == Glue(c, p, sep) + q
  {
    if c != sep {
      assert (p + q)[1..] == p[1..] + q;
    }
  }

  /** No piece contains the separator. */
  lemma {:induction false} SplitAvoids(s: string, sep: char)
    ensures forall k :: 0 <= k < |Split(s, sep)| ==> sep !in Split(s, sep)[k]
  {
    if s != [] {
      SplitAvoids(s[1..], sep);
    }
  }

  /** The characters of all the parts together. */
  function TotalLength(parts: seq<string>): nat
  {
    if parts == [] then 0 else |parts[0]| + TotalLength(parts[1..])
  }

  /** `parts.join(sep)`: the parts in order, the first one leading, with one
      separator between each two. */
  function Join(parts: seq<string>, sep: char): (r: string)
    ensures parts == [] ==> r == []
    ensures parts != [] ==> |r| == TotalLength(parts) + |parts| - 1 && parts[0] <= r
  {
    if |parts| == 0 then []
    else if |parts| == 1 then parts[0]
    else parts[0] + [sep] + Join(parts[1..], sep)
  }

  /** Splitting then joining on the same separator gives back the string. */
  lemma {:induction false} JoinSplit(s: string, sep: char)
    ensures Join(Split(s, sep), sep) == s
  {
    if s != [] {
      JoinSplit(s[1..], sep);
      var rest := Split(s[1..], sep);
      if s[0] == sep {
        assert ([[]] + rest)[1..] == rest;
      } else if |rest| > 1 {
        assert ([[s[0]] + rest[0]] + rest[1..])[1..] == rest[1..];
        assert Join(rest, sep) == rest[0] + [sep] + Join(rest[1..], sep);
      }
    }
  }

  /** A separator-free prefix becomes the start of the first piece. */
  lemma {:induction false} SplitPrefix(p: string, t: string, sep: char)
    requires sep !in p
    ensures Split(p + t, sep) == [p + Split(t, sep)[0]] + Split(t, sep)[1..]
  {
    if p != [] {
      assert (p + t)[1..] == p[1..] + t;
      SplitPrefix(p[1..], t, sep);
      assert [p[0]] + (p[1..] + Split(t, sep)[0]) == p + Split(t, sep)[0];
    } else {
      var parts := Split(t, sep);
      assert p + t == t;
      assert p + parts[0] == parts[0];
      assert [parts[0]] + parts[1..] == parts;
    }
  }

  /** Joining separator-free pieces then splitting gives back the pieces. */
  lemma {:induction false} SplitJoin(parts: seq<string>, sep: char)
    requires |parts| >= 1
    requires forall k :: 0 <= k < |parts| ==> sep !in parts[k]
    ensures Split(Join(parts, sep), sep) == parts
  {
    if |parts| == 1 {
      SplitPrefix(parts[0], [], sep);
      assert parts[0] + [] == parts[0];
    } else {
      var tail := Join(parts[1..], sep);
      SplitJoin(parts[1..], sep);
      assert parts[0] + [sep] + tail == parts[0] + ([sep] + tail);
      SplitPrefix(parts[0], [sep] + tail, sep);
      assert ([sep] + tail)[1..] == tail;
      assert Split([sep] + tail, sep) == [[]] + parts[1..];
      assert parts[0] + [] == parts[0];
    }
  }

  /** Every piece trimmed, and the pieces left empty dropped, order kept:
      `.map((s) => s.trim()).filter(Boolean)`. */
  function TrimAndDropEmpty(pieces: seq<string>): (r: seq<string>)
    ensures |r| <= |pieces|
    ensures forall k :: 0 <= k < |r| ==> r[k] != [] && IsTrimmed(r[k])
  {
    if pieces == [] then []
    else
      var t := Trim(pieces[0]);
      if t == [] then TrimAndDropEmpty(pieces[1..]) else [t] + TrimAndDropEmpty(pieces[1..])
  }

  /** A character absent from every piece is absent from every parsed item. */
  lemma {:induction false} TrimAndDropEmptyAvoids(pieces: seq<string>, c: char)
    requires forall k :: 0 <= k < |pieces| ==> c !in pieces[k]
    ensures forall k :: 0 <= k < |TrimAndDropEmpty(pieces)| ==> c !in TrimAndDropEmpty(pieces)[k]
  {
    if pieces != [] {
      TrimAndDropEmptyAvoids(pieces[1..], c);
    }
  }

  /** The list fields of the admin forms:
      `field.split(sep).map((s) => s.trim()).filter(Boolean)`. */
  function ParseList(field: string, sep: char): (items: seq<string>)
    ensures forall k :: 0 <= k < |items| ==> items[k] != [] && IsTrimmed(items[k]) && sep !in items[k]
  {
    var pieces := Split(field, sep);
    SplitAvoids(field, sep);
    TrimAndDropEmptyAvoids(pieces, sep);
    TrimAndDropEmpty(pieces)
  }

  lemma {:induction false} SplitAround(a: string, b: string, sep: char)
    ensures Split(a + [sep] + b, sep) == Split(a, sep) + Split(b, sep)
  {
    if a == [] {
      assert a + [sep] + b == [sep] + b;
      SplitCons(sep, b, sep);
    } else {
      var t := a[1..];
      assert a == [a[0]] + t;
      assert a + [sep] + b == [a[0]] + (t + [sep] + b);
      SplitAround(t, b, sep);
      SplitCons(a[0], t + [sep] + b, sep);
      SplitCons(a[0], t, sep);
      GlueAppend(a[0], Split(t, sep), Split(b, sep), sep);
    }
  }

  lemma {:induction false} TrimAndDropEmptyAppend(x: seq<string>, y: seq<string>)
    ensures TrimAndDropEmpty(x + y) == TrimAndDropEmpty(x) + TrimAndDropEmpty(y)
  {
    if x == [] {
      assert x + y == y;
    } else {
      assert (x + y)[1..] == x[1..] + y;
      TrimAndDropEmptyAppend(x[1..], y);
    }
  }

  /** The parse keeps the order of the field: the items before a separator
      come before the items after it. */
  lemma ParseListAround(a: string, b: string, sep: char)
    ensures ParseList(a + [sep] + b, sep) == ParseList(a, sep) + ParseList(b, sep)
  {
    SplitAround(a, b, sep);
    TrimAndDropEmptyAppend(Split(a, sep), Split(b, sep));
  }

  /** An item that survives the list parse unchanged. */
  predicate IsListItem(item: string, sep: char)
  {
    item != [] && IsTrimmed(item) && sep !in item
  }

  lemma {:induction false} TrimAndDropEmptyOfItems(items: seq<string>)
    requires forall k :: 0 <= k < |items| ==> items[k] != [] && IsTrimmed(items[k])
    ensures TrimAndDropEmpty(items) == items
  {
    if items != [] {
      TrimOfTrimmed(items[0]);
      TrimAndDropEmptyOfItems(items[1..]);
    }
  }

  /** Parsing a joined list gives back the list when every item is non-empty,
      free of the separator and has no surrounding white space. */
  lemma ParseJoin(items: seq<string>, sep: char)
    requires forall k :: 0 <= k < |items| ==> IsListItem(items[k], sep)
    ensures ParseList(Join(items, sep), sep) == items
  {
    if items == [] {
      assert Split([], sep) == [[]];
      assert Trim([]) == [];
    } else {
      SplitJoin(items, sep);
      TrimAndDropEmptyOfItems(items);
    }
  }

  /** Parsing is idempotent through a join: re-parsing a parsed list after
      joining it changes nothing. */
  lemma ParseListStable(field: string, sep: char)
    ensures ParseList(Join(ParseList(field, sep), sep), sep) == ParseList(field, sep)
  {
    ParseJoin(ParseList(field, sep), sep);
  }

  /** A JavaScript number read from a form field, as far as this model reads it. */
  datatype Num = Finite(value: int) | NotDecimal(text: string)

  predicate IsDigit(c: char)
  {
    '0' <= c <= '9'
  }

  predicate AllDigits(s: string)
  {
    forall i :: 0 <= i < |s| ==> IsDigit(s[i])
  }

  /** The value of a string of decimal digits, most significant first. */
  function DecimalValue(s: string): (n: nat)
    requires AllDigits(s)
  {
    if s == [] then 0 else DecimalValue(s[..|s| - 1]) * 10 + (s[|s| - 1] as int - '0' as int)
  }

  /** The decimal numeral of `n`, without leading zeros (`"0"` for zero). */
  function DecimalString(n: nat): (s: string)
    ensures s != [] && AllDigits(s) && IsTrimmed(s)
    ensures n > 0 ==> s[0] != '0'
  {
    if n < 10 then [('0' as int + n) as char]
    else DecimalString(n / 10) + [('0' as int + n % 10) as char]
  }

  /** `Number(field)`: surrounding white space ignored, the empty string is 0,
      a plain decimal numeral is its value. Signs, fractions, exponents,
      hexadecimal, `Infinity` and everything else are `NotDecimal`. */
  function ToNumber(field: string): (n: Num)
    ensures Trim(field) == [] ==> n == Finite(0)
    ensures n.Finite? ==> n.value >= 0
  {
    var t := Trim(field);
    if t == [] then Finite(0)
    else if AllDigits(t) then Finite(DecimalValue(t))
    else NotDecimal(field)
  }

  lemma {:induction false} DecimalRoundTrip(n: nat)
    ensures DecimalValue(DecimalString(n)) == n
  {
    var s := DecimalString(n);
    if n >= 10 {
      DecimalRoundTrip(n / 10);
      assert s[..|s| - 1] == DecimalString(n / 10);
    }
  }

  /** Reading back the decimal numeral of a count gives the count. */
  lemma ToNumberOfDecimal(n: nat)
    ensures ToNumber(DecimalString(n)) == Finite(n)
  {
    TrimOfTrimmed(DecimalString(n));
    DecimalRoundTrip(n);
  }
}
