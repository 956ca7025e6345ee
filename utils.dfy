/** The shared helpers of the application: night count and stay pricing,
    the status labels, `truncate` and the URL slug. */
module Utils {
  import opened Common
  import opened Text
  import opened Types

  // ------------------------------------------------------------------
  // Dates and pricing
  // ------------------------------------------------------------------

  /** `countNights`: whole days from check-in to check-out. Zero or negative
      for a range that does not move forward; it never fails. */
  function CountNights(checkIn: Day, checkOut: Day): (nights: int)
    ensures checkIn + nights == checkOut
    ensures nights > 0 <==> checkIn < checkOut
  {
    checkOut - checkIn
  }

  /** What `calculateReservation` returns. */
  datatype Quote = Quote(nights: int, subtotal: int, commissionAmount: real, totalPrice: int)

  /** `calculateReservation`: nights, the subtotal at the nightly price, the
      commission at `commissionRate` percent of it (not rounded), and a total
      equal to the subtotal. */
  function CalculateReservation(pricePerNight: int, checkIn: Day, checkOut: Day, commissionRate: real): (q: Quote)
    ensures q.nights == CountNights(checkIn, checkOut)
    ensures q.subtotal == pricePerNight * q.nights
    ensures q.commissionAmount * 100.0 == q.subtotal as real * commissionRate
    ensures q.totalPrice == q.subtotal
  {
    var nights := CountNights(checkIn, checkOut);
    var subtotal := pricePerNight * nights;
    Quote(nights, subtotal, (subtotal as real * commissionRate) / 100.0, subtotal)
  }

  /** For a forward stay at a non-negative price and a rate between 0 and 100,
      the commission is between nothing and the whole subtotal. */
  lemma CommissionWithinSubtotal(pricePerNight: int, checkIn: Day, checkOut: Day, commissionRate: real)
    requires pricePerNight >= 0 && checkIn <= checkOut
    requires 0.0 <= commissionRate <= 100.0
    ensures var q := CalculateReservation(pricePerNight, checkIn, checkOut, commissionRate);
      0 <= q.subtotal && 0.0 <= q.commissionAmount <= q.subtotal as real
  {
    var q := CalculateReservation(pricePerNight, checkIn, checkOut, commissionRate);
    NonNegativeProduct(pricePerNight, q.nights);
    var amount := q.subtotal as real;
    assert q.commissionAmount == (amount * commissionRate) / 100.0;
    PercentWithin(amount, commissionRate);
    assert q.commissionAmount <= amount;
  }

  lemma NonNegativeProduct(a: int, b: int)
    requires 0 <= a && 0 <= b
    ensures 0 <= a * b
  {
  }

  /** A percentage between 0 and 100 of a non-negative amount lies between
      nothing and the amount. */
  lemma PercentWithin(amount: real, rate: real)
    requires 0.0 <= amount && 0.0 <= rate <= 100.0
    ensures 0.0 <= (amount * rate) / 100.0 <= amount
  {
    assert 0.0 <= amount * rate;
    assert 0.0 <= amount * (100.0 - rate);
  }

  /** Pricing is linear in the nights: a stay cut at any night in between
      costs, and earns commission, exactly what its two parts do. */
  lemma PricingAddsUp(pricePerNight: int, checkIn: Day, middle: Day, checkOut: Day, commissionRate: real)
    requires checkIn <= middle <= checkOut
    ensures var whole := CalculateReservation(pricePerNight, checkIn, checkOut, commissionRate);
      var first := CalculateReservation(pricePerNight, checkIn, middle, commissionRate);
      var second := CalculateReservation(pricePerNight, middle, checkOut, commissionRate);
      && whole.nights == first.nights + second.nights
      && whole.subtotal == first.subtotal + second.subtotal
      && whole.commissionAmount == first.commissionAmount + second.commissionAmount
  {
    var a, b := middle - checkIn, checkOut - middle;
    assert pricePerNight * (a + b) == pricePerNight * a + pricePerNight * b;
    var sa, sb := (pricePerNight * a) as real, (pricePerNight * b) as real;
    assert (sa + sb) * commissionRate == sa * commissionRate + sb * commissionRate;
  }

  // ------------------------------------------------------------------
  // Labels and badge colours
  // ------------------------------------------------------------------

  /** One label per accommodation type, no label shared. */
  function TypeLabel(kind: AccommodationType): (l: string)
    ensures kind == Villa <==> l == "Villa"
    ensures kind == Appartement <==> l == "Appartement"
    ensures kind == Chambre <==> l == "Chambre"
  {
    match kind
    case Villa => "Villa"
    case Appartement => "Appartement"
    case Chambre => "Chambre"
  }

  /** One label per payment method, no label shared. */
  function PaymentMethodLabel(paymentMethod: PaymentMethod): (l: string)
    ensures paymentMethod == OrangeMoney <==> l == "Orange Money"
    ensures paymentMethod == Virement <==> l == "Virement bancaire"
    ensures paymentMethod == Especes <==> l == "Espèces"
  {
    match paymentMethod
    case OrangeMoney => "Orange Money"
    case Virement => "Virement bancaire"
    case Especes => "Espèces"
  }

  /** One label per reservation status, no label shared. */
  function ReservationStatusLabel(status: ReservationStatus): (l: string)
    ensures status == EnAttente <==> l == "En attente"
    ensures status == Confirmee <==> l == "Confirmée"
    ensures status == Annulee <==> l == "Annulée"
  {
    match status
    case EnAttente => "En attente"
    case Confirmee => "Confirmée"
    case Annulee => "Annulée"
  }

  /** One label per payment status, no label shared. */
  function PaymentStatusLabel(status: PaymentStatus): (l: string)
    ensures status == PaiementEnAttente <==> l == "En attente"
    ensures status == Paye <==> l == "Payé"
    ensures status == Annule <==> l == "Annulé"
  {
    match status
    case PaiementEnAttente => "En attente"
    case Paye => "Payé"
    case Annule => "Annulé"
  }

  /** Amber while pending, green once confirmed, red once cancelled. */
  function ReservationStatusColor(status: ReservationStatus): (c: string)
    ensures status == EnAttente <==> c == "bg-amber-100 text-amber-800 border-amber-200"
    ensures status == Confirmee <==> c == "bg-green-100 text-green-800 border-green-200"
    ensures status == Annulee <==> c == "bg-red-100 text-red-800 border-red-200"
  {
    match status
    case EnAttente => "bg-amber-100 text-amber-800 border-amber-200"
    case Confirmee => "bg-green-100 text-green-800 border-green-200"
    case Annulee => "bg-red-100 text-red-800 border-red-200"
  }

  /** The reservation palette: amber while pending, green once paid, red
      once cancelled. */
  function PaymentStatusColor(status: PaymentStatus): (c: string)
    ensures status == PaiementEnAttente <==> c == ReservationStatusColor(EnAttente)
    ensures status == Paye <==> c == ReservationStatusColor(Confirmee)
    ensures status == Annule <==> c == ReservationStatusColor(Annulee)
  {
    match status
    case PaiementEnAttente => "bg-amber-100 text-amber-800 border-amber-200"
    case Paye => "bg-green-100 text-green-800 border-green-200"
    case Annule => "bg-red-100 text-red-800 border-red-200"
  }

  /** Every status has a label and a colour, and no two statuses share a
      label, so a badge always tells the statuses apart. */
  lemma ReservationStatusLabelsDistinct(a: ReservationStatus, b: ReservationStatus)
    ensures ReservationStatusLabel(a) != "" && ReservationStatusColor(a) != ""
    ensures ReservationStatusLabel(a) == ReservationStatusLabel(b) ==> a == b
  {
  }

  /** Every payment status has a label and a colour, and no two share a
      label. */
  lemma PaymentStatusLabelsDistinct(p: PaymentStatus, q: PaymentStatus)
    ensures PaymentStatusLabel(p) != "" && PaymentStatusColor(p) != ""
    ensures PaymentStatusLabel(p) == PaymentStatusLabel(q) ==> p == q
  {
  }

  // ------------------------------------------------------------------
  // Truncate
  // ------------------------------------------------------------------

  /** Where `str.slice(0, end)` stops: a negative end counts back from the
      end of the string, and the position is clamped to the string. */
  function SliceEnd(length: nat, end: int): (stop: nat)
    ensures stop <= length
    ensures 0 <= end <= length ==> stop == end
  {
    if end < 0 then (if length + end < 0 then 0 else length + end)
    else if end > length then length
    else end
  }

  /** `truncate`: a string no longer than `maxLength` is returned as it is;
      a longer one is cut to its first `maxLength` characters and ended with
      an ellipsis. A negative `maxLength` cuts that many characters off the
      end instead, as `slice` does. */
  function Truncate(s: string, maxLength: int): (r: string)
    ensures |s| <= maxLength ==> r == s
    ensures maxLength < |s| ==> |r| == SliceEnd(|s|, maxLength) + 1 && r[..|r| - 1] <= s && r[|r| - 1] == '…'
    ensures 0 <= maxLength < |s| ==> |r| == maxLength + 1 && r[..maxLength] == s[..maxLength]
    ensures s != [] ==> |r| <= |s|
  {
    if |s| <= maxLength then s else s[..SliceEnd(|s|, maxLength)] + "…"
  }

  // ------------------------------------------------------------------
  // Slug
  // ------------------------------------------------------------------

  /** `toLowerCase` on ASCII and Latin-1 capitals. */
  function LowerChar(c: char): char
  {
    if 'A' <= c <= 'Z' || ('\U{00C0}' <= c <= '\U{00DE}' && c != '\U{00D7}') then (c as int + 32) as char else c
  }

  function Lower(s: string): (r: string)
    ensures |r| == |s|
    ensures forall i :: 0 <= i < |s| ==> r[i] == LowerChar(s[i])
  {
    seq(|s|, i requires 0 <= i < |s| => LowerChar(s[i]))
  }

  /** Canonical decomposition (NFD) of the lower-case Latin-1 letters that
      carry an accent: the base letter followed by its combining mark. */
  function Decompose(c: char): seq<char>
  {
    match c
    case 'à' => "a\U{0300}"
    case 'á' => "a\U{0301}"
    case 'â' => "a\U{0302}"
    case 'ã' => "a\U{0303}"
    case 'ä' => "a\U{0308}"
    case 'å' => "a\U{030A}"
    case 'ç' => "c\U{0327}"
    case 'è' => "e\U{0300}"
    case 'é' => "e\U{0301}"
    case 'ê' => "e\U{0302}"
    case 'ë' => "e\U{0308}"
    case 'ì' => "i\U{0300}"
    case 'í' => "i\U{0301}"
    case 'î' => "i\U{0302}"
    case 'ï' => "i\U{0308}"
    case 'ñ' => "n\U{0303}"
    case 'ò' => "o\U{0300}"
    case 'ó' => "o\U{0301}"
    case 'ô' => "o\U{0302}"
    case 'õ' => "o\U{0303}"
    case 'ö' => "o\U{0308}"
    case 'ù' => "u\U{0300}"
    case 'ú' => "u\U{0301}"
    case 'û' => "u\U{0302}"
    case 'ü' => "u\U{0308}"
    case 'ý' => "y\U{0301}"
    case 'ÿ' => "y\U{0308}"
    case _ => [c]
  }

  /** `normalize('NFD')`: every character becomes itself or a base letter
      followed by one combining mark. */
  function Nfd(s: string): (r: string)
    ensures |s| <= |r| <= 2 * |s|
  {
    if s == [] then [] else Decompose(s[0]) + Nfd(s[1..])
  }

  predicate IsCombiningMark(c: char)
  {
    '\U{0300}' <= c <= '\U{036F}'
  }

  /** The characters kept by `replace(/[^a-z0-9\s-]/g, '')`. */
  predicate IsSlugSourceChar(c: char)
  {
    'a' <= c <= 'z' || '0' <= c <= '9' || IsWhitespace(c) || c == '-'
  }

  /** The characters a slug is made of. */
  predicate IsSlugChar(c: char)
  {
    'a' <= c <= 'z' || '0' <= c <= '9' || c == '-'
  }

  /** `replace(/[\u0300-\u036f]/g, '')`: the combining marks dropped, the
      other characters kept in order. */
  function DropCombiningMarks(s: string): (r: string)
    ensures |r| <= |s|
    ensures forall i :: 0 <= i < |r| ==> !IsCombiningMark(r[i]) && r[i] in s
    ensures (forall i :: 0 <= i < |s| ==> !IsCombiningMark(s[i])) ==> r == s
  {
    if s == [] then []
    else if !IsCombiningMark(s[0]) then [s[0]] + DropCombiningMarks(s[1..])
    else DropCombiningMarks(s[1..])
  }

  /** `replace(/[^a-z0-9\s-]/g, '')`: only letters, digits, white space and
      dashes kept, in order. */
  function KeepSlugSource(s: string): (r: string)
    ensures |r| <= |s|
    ensures forall i :: 0 <= i < |r| ==> IsSlugSourceChar(r[i])
    ensures (forall i :: 0 <= i < |s| ==> IsSlugSourceChar(s[i])) ==> r == s
  {
    if s == [] then []
    else if IsSlugSourceChar(s[0]) then [s[0]] + KeepSlugSource(s[1..])
    else KeepSlugSource(s[1..])
  }

  function SkipWhitespace(s: string): (r: string)
    ensures |r| <= |s| && r == s[|s| - |r|..]
    ensures r == [] || !IsWhitespace(r[0])
  {
    if s != [] && IsWhitespace(s[0]) then SkipWhitespace(s[1..]) else s
  }

  /** `replace(/\s+/g, '-')`: every run of white space becomes one `-`. */
  function HyphenateWhitespace(s: string): string
  {
    if s == [] then []
    else if IsWhitespace(s[0]) then "-" + HyphenateWhitespace(SkipWhitespace(s[1..]))
    else [s[0]] + HyphenateWhitespace(s[1..])
  }

  /** After `\s+` has become `-`, no white space is left and the string is
      no longer than before. */
  lemma {:induction false} HyphenateLeavesNoWhitespace(s: string)
    ensures |HyphenateWhitespace(s)| <= |s|
    ensures NoWhitespace(HyphenateWhitespace(s))
  {
    if s != [] {
      if IsWhitespace(s[0]) {
        var rest := SkipWhitespace(s[1..]);
        assert HyphenateWhitespace(s) == ['-'] + HyphenateWhitespace(rest);
        HyphenateLeavesNoWhitespace(rest);
        assert !IsWhitespace('-');
        ConsNoWhitespace('-', HyphenateWhitespace(rest));
      } else {
        assert HyphenateWhitespace(s) == [s[0]] + HyphenateWhitespace(s[1..]);
        HyphenateLeavesNoWhitespace(s[1..]);
        ConsNoWhitespace(s[0], HyphenateWhitespace(s[1..]));
      }
    }
  }

  predicate NoWhitespace(s: string)
  {
    forall i :: 0 <= i < |s| ==> !IsWhitespace(s[i])
  }

  lemma ConsNoWhitespace(c: char, s: string)
    requires !IsWhitespace(c) && NoWhitespace(s)
    ensures NoWhitespace([c] + s)
  {
    assert forall i :: 1 <= i < |[c] + s| ==> ([c] + s)[i] == s[i - 1];
  }

  /** Only letters, digits, white space and dashes. */
  predicate AllSlugSource(s: string)
  {
    forall i :: 0 <= i < |s| ==> IsSlugSourceChar(s[i])
  }

  /** Only letters, digits and dashes. */
  predicate AllSlugChars(s: string)
  {
    forall i :: 0 <= i < |s| ==> IsSlugChar(s[i])
  }

  /** Once white space has become dashes, only slug characters are left. */
  lemma {:induction false} HyphenateSlugChars(s: string)
    requires AllSlugSource(s)
    ensures AllSlugChars(HyphenateWhitespace(s))
  {
    if s != [] {
      if IsWhitespace(s[0]) {
        var rest := SkipWhitespace(s[1..]);
        SuffixSlugSource(s, |s| - |rest|);
        HyphenateSlugChars(rest);
        ConsSlugChars('-', HyphenateWhitespace(rest));
      } else {
        SuffixSlugSource(s, 1);
        HyphenateSlugChars(s[1..]);
        assert IsSlugChar(s[0]);
        ConsSlugChars(s[0], HyphenateWhitespace(s[1..]));
      }
    }
  }

  lemma SuffixSlugSource(s: string, k: nat)
    requires AllSlugSource(s) && k <= |s|
    ensures AllSlugSource(s[k..])
  {
    assert forall i :: 0 <= i < |s[k..]| ==> s[k..][i] == s[k + i];
  }

  lemma SuffixSlugChars(s: string, k: nat)
    requires AllSlugChars(s) && k <= |s|
    ensures AllSlugChars(s[k..])
  {
    assert forall i :: 0 <= i < |s[k..]| ==> s[k..][i] == s[k + i];
  }

  lemma ConsSlugChars(c: char, t: string)
    requires IsSlugChar(c) && AllSlugChars(t)
    ensures AllSlugChars([c] + t)
  {
    assert forall i :: 1 <= i < |[c] + t| ==> ([c] + t)[i] == t[i - 1];
  }

  /** Without white space there is nothing to replace. */
  lemma {:induction false} HyphenateWithoutWhitespace(s: string)
    requires forall i :: 0 <= i < |s| ==> !IsWhitespace(s[i])
    ensures HyphenateWhitespace(s) == s
  {
    if s != [] {
      assert forall i :: 0 <= i < |s[1..]| ==> s[1..][i] == s[i + 1];
      HyphenateWithoutWhitespace(s[1..]);
      assert [s[0]] + s[1..] == s;
    }
  }

  function SkipDashes(s: string): (r: string)
    ensures |r| <= |s| && r == s[|s| - |r|..]
    ensures r == [] || r[0] != '-'
  {
    if s != [] && s[0] == '-' then SkipDashes(s[1..]) else s
  }

  /** No two consecutive dashes. */
  predicate NoDoubleDash(s: string)
  {
    forall i :: 0 <= i < |s| - 1 ==> !(s[i] == '-' && s[i + 1] == '-')
  }

  lemma NoDoubleDashCons(c: char, t: string)
    requires NoDoubleDash(t)
    requires t == [] || c != '-' || t[0] != '-'
    ensures NoDoubleDash([c] + t)
  {
    var s := [c] + t;
    forall i | 0 <= i < |s| - 1 ensures !(s[i] == '-' && s[i + 1] == '-') {
      if i > 0 {
        assert s[i] == t[i - 1] && s[i + 1] == t[i];
      }
    }
  }

  lemma NoDoubleDashTail(s: string)
    requires s != [] && NoDoubleDash(s)
    ensures NoDoubleDash(s[1..])
  {
    forall i | 0 <= i < |s[1..]| - 1 ensures !(s[1..][i] == '-' && s[1..][i + 1] == '-') {
      assert s[1..][i] == s[i + 1] && s[1..][i + 1] == s[i + 2];
    }
  }

  /** `replace(/-+/g, '-')`: every run of dashes becomes one `-`. */
  function CollapseDashes(s: string): (r: string)
    ensures |s| > 0 ==> |r| > 0 && r[0] == s[0]
    ensures NoDoubleDash(r)
  {
    if s == [] then []
    else
      var rest := if s[0] == '-' then SkipDashes(s[1..]) else s[1..];
      var tail := CollapseDashes(rest);
      NoDoubleDashCons(s[0], tail);
      [s[0]] + tail
  }

  /** Collapsing dashes brings in no new character. */
  lemma {:induction false} CollapseSlugChars(s: string)
    requires AllSlugChars(s)
    ensures AllSlugChars(CollapseDashes(s))
  {
    if s != [] {
      var rest := if s[0] == '-' then SkipDashes(s[1..]) else s[1..];
      SuffixSlugChars(s, |s| - |rest|);
      CollapseSlugChars(rest);
      SlugCharsTail(s);
      ConsSlugChars(s[0], CollapseDashes(rest));
    }
  }

  /** A string without dash runs is left as it is. */
  lemma {:induction false} CollapseDashesOfSingleDashes(s: string)
    requires NoDoubleDash(s)
    ensures CollapseDashes(s) == s
  {
    if s != [] {
      NoDoubleDashTail(s);
      CollapseDashesOfSingleDashes(s[1..]);
      if s[0] == '-' {
        assert SkipDashes(s[1..]) == s[1..];
      }
      assert [s[0]] + s[1..] == s;
    }
  }

  /** A well-formed slug: lower-case ASCII letters, digits and single dashes. */
  predicate IsSlug(s: string)
  {
    AllSlugChars(s) && NoDoubleDash(s)
  }

  /** `generateSlug`: lower-case, strip accents, drop every character that is
      not a letter, digit, white space or dash, turn white-space runs into a
      dash, collapse dash runs, and trim. */
  function GenerateSlug(name: string): (slug: string)
    ensures IsSlug(slug)
  {
    var kept := KeepSlugSource(DropCombiningMarks(Nfd(Lower(name))));
    var hyphenated := HyphenateWhitespace(kept);
    var collapsed := CollapseDashes(hyphenated);
    HyphenateSlugChars(kept);
    CollapseSlugChars(hyphenated);
    TrimOfTrimmed(collapsed);
    Trim(collapsed)
  }

  lemma SlugCharUndecomposed(c: char)
    requires IsSlugChar(c)
    ensures Decompose(c) == [c]
  {
  }

  lemma {:induction false} NfdOfSlugChars(s: string)
    requires AllSlugChars(s)
    ensures Nfd(s) == s
  {
    if s != [] {
      SlugCharsTail(s);
      NfdOfSlugChars(s[1..]);
      SlugCharUndecomposed(s[0]);
      assert [s[0]] + s[1..] == s;
    }
  }

  lemma SlugCharsTail(s: string)
    requires s != [] && AllSlugChars(s)
    ensures IsSlugChar(s[0]) && AllSlugChars(s[1..])
  {
    assert forall i :: 0 <= i < |s[1..]| ==> s[1..][i] == s[i + 1];
  }

  /** Slug characters are already lower case, unaccented and kept. */
  lemma SlugCharsPassFilters(s: string)
    requires AllSlugChars(s)
    ensures Lower(s) == s
    ensures DropCombiningMarks(s) == s
    ensures KeepSlugSource(s) == s
    ensures forall i :: 0 <= i < |s| ==> !IsWhitespace(s[i])
  {
    assert forall i :: 0 <= i < |s| ==> !IsCombiningMark(s[i]) && IsSlugSourceChar(s[i]);
  }

  /** A slug is its own slug. */
  lemma SlugOfSlug(s: string)
    requires IsSlug(s)
    ensures GenerateSlug(s) == s
  {
    SlugCharsPassFilters(s);
    NfdOfSlugChars(s);
    HyphenateWithoutWhitespace(s);
    CollapseDashesOfSingleDashes(s);
    TrimOfTrimmed(s);
  }

  /** `generateSlug` is idempotent. */
  lemma GenerateSlugIdempotent(name: string)
    ensures GenerateSlug(GenerateSlug(name)) == GenerateSlug(name)
  {
    SlugOfSlug(GenerateSlug(name));
  }
}
