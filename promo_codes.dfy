/** Promo codes: validation of a typed code against the `promo_codes`
    collection, and the administration actions that add, switch on or off,
    and delete codes. */
module PromoCodes {
  import opened Common
  import opened Text

  datatype DiscountType = Percent | Fixed

  /** A `promo_codes` document. `maxUses == None` is `max_uses: null`
      (unlimited); `expiresAt == None` is no expiry. */
  datatype PromoCode = PromoCode(
    code: string,
    discountType: DiscountType,
    discountValue: int,
    active: bool,
    expiresAt: Option<Time>,
    maxUses: Option<int>,
    usedCount: int,
    createdAt: Time)

  /** A document with the identifier the collection gave it. */
  datatype PromoDoc = PromoDoc(id: Id, promo: PromoCode)

  /** The result of `validatePromoCode`. */
  datatype PromoValidation =
    | Accepted(code: string, discountType: DiscountType, discountValue: int, discountAmount: int)
    | Rejected(error: string)

  // ------------------------------------------------------------------
  // Validation
  // ------------------------------------------------------------------

  /** `where('code', '==', code).limit(1)`: the first document with that
      code, if any. */
  function FindByCode(docs: seq<PromoDoc>, code: string): (r: Option<PromoDoc>)
    ensures r.None? <==> forall i :: 0 <= i < |docs| ==> docs[i].promo.code != code
    ensures r.Some? ==> r.value in docs && r.value.promo.code == code
  {
    if docs == [] then None
    else if docs[0].promo.code == code then Some(docs[0])
    else FindByCode(docs[1..], code)
  }

  /** `expires_at` set and strictly before now. */
  predicate Expired(p: PromoCode, now: Time)
  {
    p.expiresAt.Some? && p.expiresAt.value < now
  }

  /** `max_uses` set and already reached. */
  predicate UsageExhausted(p: PromoCode)
  {
    p.maxUses.Some? && p.usedCount >= p.maxUses.value
  }

  /** Active, not expired and under its usage limit. */
  predicate Redeemable(p: PromoCode, now: Time)
  {
    p.active && !Expired(p, now) && !UsageExhausted(p)
  }

  /** `Math.round(x / 100)` for an integer `x`: halves round up. */
  function RoundHalfUp(x: int): (r: int)
    ensures 100 * r - 50 <= x < 100 * r + 50
  {
    (x + 50) / 100
  }

  /** Only one integer lies within half a unit of `x / 100` in the sense of
      `RoundHalfUp`'s contract. */
  lemma RoundHalfUpUnique(x: int, r: int)
    requires 100 * r - 50 <= x < 100 * r + 50
    ensures r == RoundHalfUp(x)
  {
    var q := RoundHalfUp(x);
    assert 100 * (r - q) < 100 && 100 * (q - r) < 100;
  }

  /** The discount for `totalPrice`: a percentage rounded half up, or a
      fixed amount capped at the total. */
  function DiscountAmount(discountType: DiscountType, discountValue: int, totalPrice: int): (d: int)
    ensures discountType == Percent ==> 100 * d - 50 <= totalPrice * discountValue < 100 * d + 50
    ensures discountType == Fixed ==> d <= discountValue && d <= totalPrice
    ensures discountType == Fixed ==> d == discountValue || d == totalPrice
  {
    match discountType
    case Percent => RoundHalfUp(totalPrice * discountValue)
    case Fixed => if discountValue <= totalPrice then discountValue else totalPrice
  }

  /** `validatePromoCode`: normalise, then the first failing check is the
      answer; otherwise the discount for `totalPrice`. */
  function ValidatePromoCode(docs: seq<PromoDoc>, code: string, totalPrice: int, now: Time): (r: PromoValidation)
    ensures r.Accepted? <==>
      Normalize(code) != [] && FindByCode(docs, Normalize(code)).Some?
      && Redeemable(FindByCode(docs, Normalize(code)).value.promo, now)
    ensures r.Accepted? ==>
      var p := FindByCode(docs, Normalize(code)).value.promo;
      && r.code == Normalize(code) == p.code
      && r.discountType == p.discountType && r.discountValue == p.discountValue
      && r.discountAmount == DiscountAmount(p.discountType, p.discountValue, totalPrice)
  {
    var normalized := Normalize(code);
    if normalized == [] then Rejected("Code vide")
    else
      var found := FindByCode(docs, normalized);
      if found.None? then Rejected("Code promo invalide")
      else
        var promo := found.value.promo;
        if !promo.active then Rejected("Ce code promo n'est plus actif")
        else if Expired(promo, now) then Rejected("Ce code promo a expiré")
        else if UsageExhausted(promo) then Rejected("Ce code promo a atteint sa limite d'utilisation")
        else Accepted(normalized, promo.discountType, promo.discountValue,
                      DiscountAmount(promo.discountType, promo.discountValue, totalPrice))
  }

  /** The rejections come in a fixed order, the first failing check being
      the answer: empty, unknown, inactive, expired, exhausted. */
  lemma RejectionOrder(docs: seq<PromoDoc>, code: string, totalPrice: int, now: Time)
    ensures var r := ValidatePromoCode(docs, code, totalPrice, now);
      var c := Normalize(code);
      var found := FindByCode(docs, c);
      && (c == [] ==> r == Rejected("Code vide"))
      && (c != [] && found.None? ==> r == Rejected("Code promo invalide"))
      && (c != [] && found.Some? && !found.value.promo.active ==> r == Rejected("Ce code promo n'est plus actif"))
      && (c != [] && found.Some? && found.value.promo.active && Expired(found.value.promo, now) ==>
            r == Rejected("Ce code promo a expiré"))
      && (c != [] && found.Some? && found.value.promo.active && !Expired(found.value.promo, now)
            && UsageExhausted(found.value.promo) ==>
            r == Rejected("Ce code promo a atteint sa limite d'utilisation"))
  {
  }

  /** Case and surrounding white space of the typed code do not matter:
      only its normal form is looked up. */
  lemma OnlyNormalFormMatters(docs: seq<PromoDoc>, code1: string, code2: string, totalPrice: int, now: Time)
    requires Normalize(code1) == Normalize(code2)
    ensures ValidatePromoCode(docs, code1, totalPrice, now) == ValidatePromoCode(docs, code2, totalPrice, now)
  {
  }

  /** The usage limit is reached at `used_count == max_uses`: one use
      before that still passes. */
  lemma UsageLimitBoundary(p: PromoCode)
    requires p.maxUses.Some?
    ensures p.usedCount == p.maxUses.value ==> UsageExhausted(p)
    ensures p.usedCount == p.maxUses.value - 1 ==> !UsageExhausted(p)
  {
  }

  /** An accepted discount never exceeds the total for a fixed code, nor for
      a percentage of at most 100 on a non-negative total. */
  lemma DiscountWithinTotal(docs: seq<PromoDoc>, code: string, totalPrice: int, now: Time)
    requires totalPrice >= 0
    requires var r := ValidatePromoCode(docs, code, totalPrice, now);
      r.Accepted? && (r.discountType == Percent ==> 0 <= r.discountValue <= 100)
    ensures var r := ValidatePromoCode(docs, code, totalPrice, now);
      0 <= r.discountAmount <= totalPrice || (r.discountType == Fixed && r.discountAmount == r.discountValue < 0)
  {
    var r := ValidatePromoCode(docs, code, totalPrice, now);
    if r.discountType == Percent {
      var x := totalPrice * r.discountValue;
      assert 0 <= x <= 100 * totalPrice by {
        MulBounds(totalPrice, r.discountValue);
      }
    }
  }

  lemma MulBounds(a: int, b: int)
    requires 0 <= a && 0 <= b <= 100
    ensures 0 <= a * b <= 100 * a
  {
  }

  /** The `max_uses` stored for the submitted limit: none and zero both
      mean unlimited. */
  function StoredLimit(maxUses: Option<int>): (r: Option<int>)
    ensures r.None? <==> maxUses.None? || maxUses.value == 0
    ensures r.Some? ==> r == maxUses
  {
    if maxUses.Some? && maxUses.value != 0 then maxUses else None
  }

  /** The document `createPromoCode` adds: the normal form of the code,
      active, never used, created now. */
  function NewPromoCode(code: string, discountType: DiscountType, discountValue: int,
                        expiresAt: Option<Time>, maxUses: Option<int>, now: Time): (p: PromoCode)
    ensures p.code == Normalize(code) && IsNormal(p.code)
    ensures p.discountType == discountType && p.discountValue == discountValue
    ensures p.active && p.usedCount == 0 && p.createdAt == now && p.expiresAt == expiresAt
    ensures p.maxUses.None? <==> maxUses.None? || maxUses.value == 0
    ensures p.maxUses.Some? ==> p.maxUses == maxUses
  {
    NormalizeIsNormal(code);
    PromoCode(Normalize(code), discountType, discountValue, true, expiresAt, StoredLimit(maxUses), 0, now)
  }

  // ------------------------------------------------------------------
  // Lookups by document id
  // ------------------------------------------------------------------

  predicate HasId(docs: seq<PromoDoc>, id: Id)
  {
    exists i :: 0 <= i < |docs| && docs[i].id == id
  }

  /** `doc(id).update({ active })` on the document with that id. */
  function SetActive(docs: seq<PromoDoc>, id: Id, active: bool): (r: seq<PromoDoc>)
    ensures |r| == |docs|
    ensures forall i :: 0 <= i < |docs| ==> r[i].id == docs[i].id
    ensures forall i :: 0 <= i < |docs| && docs[i].id == id ==> r[i].promo == docs[i].promo.(active := active)
    ensures forall i :: 0 <= i < |docs| && docs[i].id != id ==> r[i] == docs[i]
  {
    seq(|docs|, i requires 0 <= i < |docs| =>
      if docs[i].id == id then docs[i].(promo := docs[i].promo.(active := active)) else docs[i])
  }

  /** `doc(id).delete()`: the documents with another id, in order. */
  function WithoutId(docs: seq<PromoDoc>, id: Id): (r: seq<PromoDoc>)
    ensures forall d :: d in r <==> d in docs && d.id != id
    ensures |r| <= |docs|
  {
    if docs == [] then []
    else if docs[0].id == id then WithoutId(docs[1..], id)
    else [docs[0]] + WithoutId(docs[1..], id)
  }

  /** With distinct codes, a looked-up code names exactly one document. */
  lemma FindByCodeUnique(docs: seq<PromoDoc>, i: int)
    requires 0 <= i < |docs|
    requires forall j, k :: 0 <= j < k < |docs| ==> docs[j].promo.code != docs[k].promo.code
    ensures FindByCode(docs, docs[i].promo.code) == Some(docs[i])
  {
    if i > 0 {
      FindByCodeUnique(docs[1..], i - 1);
    }
  }

  /** Appending a document with a new code makes it the one found. */
  lemma FindByCodeAppend(docs: seq<PromoDoc>, d: PromoDoc)
    requires FindByCode(docs, d.promo.code).None?
    ensures FindByCode(docs + [d], d.promo.code) == Some(d)
  {
    if docs != [] {
      assert (docs + [d])[1..] == docs[1..] + [d];
      FindByCodeAppend(docs[1..], d);
    }
  }

  // ------------------------------------------------------------------
  // The collection
  // ------------------------------------------------------------------

  /** The `promo_codes` collection, in insertion order. */
  class PromoCodeStore {
    var docs: seq<PromoDoc>
    /** The next identifier `add` hands out. */
    var nextId: Id

    ghost predicate Valid()
      reads this
    {
      WellFormed(docs, nextId)
    }

    constructor ()
      ensures Valid() && docs == []
    {
      docs := [];
      nextId := 0;
    }

    /** `createPromoCode`: an empty or already-used normal form is refused;
        otherwise exactly one active, unused code is added, with an absent
        or zero usage limit stored as unlimited. Nothing is caught: a
        failing lookup (`queryError`) or insert (`writeError`) rejects the
        call with the store's error, shown here as that error, and nothing
        is added. */
    method CreatePromoCode(code: string, discountType: DiscountType, discountValue: int,
                           expiresAt: Option<Time>, maxUses: Option<int>, now: Time,
                           queryError: Option<string>, writeError: Option<string>)
      returns (r: Outcome<string>)
      requires Valid()
      modifies this
      ensures Valid()
      ensures Normalize(code) == [] ==> r == Fail("Le code est requis") && docs == old(docs)
      ensures Normalize(code) != [] && queryError.Some? ==> r == Fail(queryError.value) && docs == old(docs)
      ensures Normalize(code) != [] && queryError.None? && FindByCode(old(docs), Normalize(code)).Some? ==>
        r == Fail("Ce code existe déjà") && docs == old(docs)
      ensures Normalize(code) != [] && queryError.None? && FindByCode(old(docs), Normalize(code)).None? ==>
        if writeError.Some? then r == Fail(writeError.value) && docs == old(docs)
        else
          && r == Pass
          && docs == old(docs) + [PromoDoc(old(nextId), NewPromoCode(code, discountType, discountValue, expiresAt, maxUses, now))]
    {
      var normalized := Normalize(code);
      if normalized == [] {
        return Fail("Le code est requis");
      }
      if queryError.Some? {
        return Fail(queryError.value);
      }
      var existing := FindByCode(docs, normalized);
      if existing.Some? {
        return Fail("Ce code existe déjà");
      }
      if writeError.Some? {
        return Fail(writeError.value);
      }
      var limit := StoredLimit(maxUses);
      var doc := PromoDoc(nextId, PromoCode(normalized, discountType, discountValue, true, expiresAt, limit, 0, now));
      NormalizeIsNormal(code);
      AppendKeepsWellFormed(docs, nextId, doc);
      docs := docs + [doc];
      nextId := nextId + 1;
      return Pass;
    }

    /** `togglePromoCode`: the document's `active` flag is set; a missing
        document makes the update throw (`NOT_FOUND`, which Firestore
        follows with the document's path, not modelled) and changes nothing,
        as does a failing write (`storeError`). Nothing is caught: the throw
        rejects the call, shown here as its message. */
    method TogglePromoCode(id: Id, active: bool, storeError: Option<string>) returns (r: Outcome<string>)
      requires Valid()
      modifies this
      ensures Valid()
      ensures nextId == old(nextId)
      ensures !HasId(old(docs), id) ==> r == Fail("NOT_FOUND") && docs == old(docs)
      ensures HasId(old(docs), id) && storeError.Some? ==> r == Fail(storeError.value) && docs == old(docs)
      ensures HasId(old(docs), id) && storeError.None? ==> r == Pass && docs == SetActive(old(docs), id, active)
    {
      if !HasId(docs, id) {
        return Fail("NOT_FOUND");
      }
      if storeError.Some? {
        return Fail(storeError.value);
      }
      SetActiveKeepsWellFormed(docs, nextId, id, active);
      docs := SetActive(docs, id, active);
      return Pass;
    }

    /** `deletePromoCode`: the document with that id, if any, is removed; a
        failing delete (`storeError`) rejects the call and removes nothing. */
    method DeletePromoCode(id: Id, storeError: Option<string>) returns (r: Outcome<string>)
      requires Valid()
      modifies this
      ensures Valid()
      ensures nextId == old(nextId)
      ensures storeError.Some? ==> r == Fail(storeError.value) && docs == old(docs)
      ensures storeError.None? ==> r == Pass && docs == WithoutId(old(docs), id)
    {
      if storeError.Some? {
        return Fail(storeError.value);
      }
      WithoutIdKeepsWellFormed(docs, nextId, id);
      docs := WithoutId(docs, id);
      return Pass;
    }
  }

  /** Every document's code is non-empty and in normal form (trimmed,
      upper case). */
  predicate NormalCodes(docs: seq<PromoDoc>)
  {
    forall i :: 0 <= i < |docs| ==> docs[i].promo.code != [] && IsNormal(docs[i].promo.code)
  }

  predicate DistinctIds(docs: seq<PromoDoc>)
  {
    forall i, j :: 0 <= i < j < |docs| ==> docs[i].id != docs[j].id
  }

  predicate DistinctCodes(docs: seq<PromoDoc>)
  {
    forall i, j :: 0 <= i < j < |docs| ==> docs[i].promo.code != docs[j].promo.code
  }

  /** The collection's invariant: identifiers distinct and below `nextId`,
      codes distinct and in normal form. */
  ghost predicate WellFormed(docs: seq<PromoDoc>, nextId: Id)
  {
    && (forall i :: 0 <= i < |docs| ==> docs[i].id < nextId)
    && NormalCodes(docs) && DistinctIds(docs) && DistinctCodes(docs)
  }

  lemma AppendKeepsWellFormed(docs: seq<PromoDoc>, nextId: Id, d: PromoDoc)
    requires WellFormed(docs, nextId)
    requires d.id == nextId && d.promo.code != [] && IsNormal(d.promo.code)
    requires FindByCode(docs, d.promo.code).None?
    ensures WellFormed(docs + [d], nextId + 1)
  {
    AppendKeepsIds(docs, nextId, d);
    AppendKeepsCodes(docs, d);
  }

  lemma AppendKeepsIds(docs: seq<PromoDoc>, nextId: Id, d: PromoDoc)
    requires forall i :: 0 <= i < |docs| ==> docs[i].id < nextId
    requires DistinctIds(docs) && d.id == nextId
    ensures forall i :: 0 <= i < |docs + [d]| ==> (docs + [d])[i].id < nextId + 1
    ensures DistinctIds(docs + [d])
  {
    var after := docs + [d];
    assert forall i :: 0 <= i < |docs| ==> after[i] == docs[i];
    assert after[|docs|] == d;
  }

  lemma AppendKeepsCodes(docs: seq<PromoDoc>, d: PromoDoc)
    requires NormalCodes(docs) && DistinctCodes(docs)
    requires d.promo.code != [] && IsNormal(d.promo.code)
    requires forall i :: 0 <= i < |docs| ==> docs[i].promo.code != d.promo.code
    ensures NormalCodes(docs + [d]) && DistinctCodes(docs + [d])
  {
    AppendKeepsNormal(docs, d);
    AppendKeepsDistinctCodes(docs, d);
  }

  lemma AppendKeepsNormal(docs: seq<PromoDoc>, d: PromoDoc)
    requires NormalCodes(docs)
    requires d.promo.code != [] && IsNormal(d.promo.code)
    ensures NormalCodes(docs + [d])
  {
    var after := docs + [d];
    forall i | 0 <= i < |after|
      ensures after[i].promo.code != [] && IsNormal(after[i].promo.code)
    {
      if i < |docs| {
        assert after[i] == docs[i];
      }
    }
  }

  lemma AppendKeepsDistinctCodes(docs: seq<PromoDoc>, d: PromoDoc)
    requires DistinctCodes(docs)
    requires forall i :: 0 <= i < |docs| ==> docs[i].promo.code != d.promo.code
    ensures DistinctCodes(docs + [d])
  {
    var after := docs + [d];
    assert forall i :: 0 <= i < |docs| ==> after[i] == docs[i];
    assert after[|docs|] == d;
  }

  lemma SetActiveKeepsWellFormed(docs: seq<PromoDoc>, nextId: Id, id: Id, active: bool)
    requires WellFormed(docs, nextId)
    ensures WellFormed(SetActive(docs, id, active), nextId)
  {
    var after := SetActive(docs, id, active);
    assert forall i :: 0 <= i < |docs| ==> after[i].promo.code == docs[i].promo.code;
  }

  /** Deleting keeps the remaining documents in order, so what was distinct
      stays distinct. */
  lemma WithoutIdKeepsWellFormed(docs: seq<PromoDoc>, nextId: Id, id: Id)
    requires WellFormed(docs, nextId)
    ensures WellFormed(WithoutId(docs, id), nextId)
  {
    var r := WithoutId(docs, id);
    forall k | 0 <= k < |r|
      ensures r[k].id < nextId && r[k].promo.code != [] && IsNormal(r[k].promo.code)
    {
      assert r[k] in docs;
    }
    WithoutIdKeepsDistinct(docs, id);
  }

  lemma {:induction false} WithoutIdKeepsDistinct(docs: seq<PromoDoc>, id: Id)
    requires DistinctIds(docs) && DistinctCodes(docs)
    ensures DistinctIds(WithoutId(docs, id)) && DistinctCodes(WithoutId(docs, id))
  {
    if docs != [] {
      var tail := docs[1..];
      WithoutIdKeepsDistinct(tail, id);
      if docs[0].id != id {
        HeadDiffersFromTail(docs);
        ConsKeepsDistinct(docs[0], WithoutId(tail, id));
      }
    }
  }

  /** In a collection without repeated ids or codes, no later document
      shares the first one's id or code. */
  lemma HeadDiffersFromTail(docs: seq<PromoDoc>)
    requires docs != [] && DistinctIds(docs) && DistinctCodes(docs)
    ensures forall d :: d in docs[1..] ==> d.id != docs[0].id && d.promo.code != docs[0].promo.code
  {
    forall d | d in docs[1..]
      ensures d.id != docs[0].id && d.promo.code != docs[0].promo.code
    {
      var j :| 0 <= j < |docs[1..]| && docs[1..][j] == d;
      assert docs[j + 1] == d;
    }
  }

  lemma ConsKeepsDistinct(x: PromoDoc, rest: seq<PromoDoc>)
    requires DistinctIds(rest) && DistinctCodes(rest)
    requires forall d :: d in rest ==> d.id != x.id && d.promo.code != x.promo.code
    ensures DistinctIds([x] + rest) && DistinctCodes([x] + rest)
  {
    var r := [x] + rest;
    assert forall i :: 1 <= i < |r| ==> r[i] == rest[i - 1] && r[i] in rest;
  }

  // ------------------------------------------------------------------
  // Validation after administration
  // ------------------------------------------------------------------

  /** A code just created validates, typed in any case and with any
      surrounding white space, as long as it has not expired and has an
      unlimited or positive usage limit. */
  lemma CreatedCodeValidates(
    docs: seq<PromoDoc>, id: Id, code: string, typed: string, discountType: DiscountType,
    discountValue: int, expiresAt: Option<Time>, maxUses: Option<int>, createdAt: Time,
    totalPrice: int, now: Time)
    requires Normalize(code) != [] && FindByCode(docs, Normalize(code)).None?
    requires Normalize(typed) == Normalize(code)
    requires expiresAt.None? || now <= expiresAt.value
    requires maxUses.None? || maxUses.value >= 0
    ensures var after := docs + [PromoDoc(id, NewPromoCode(code, discountType, discountValue, expiresAt, maxUses, createdAt))];
      ValidatePromoCode(after, typed, totalPrice, now)
        == Accepted(Normalize(code), discountType, discountValue, DiscountAmount(discountType, discountValue, totalPrice))
  {
    var d := PromoDoc(id, NewPromoCode(code, discountType, discountValue, expiresAt, maxUses, createdAt));
    FindByCodeAppend(docs, d);
    assert Redeemable(d.promo, now);
    AcceptedWhenRedeemable(docs + [d], typed, d, totalPrice, now);
  }

  /** A typed code whose normal form finds a redeemable document is
      accepted with that document's discount. */
  lemma AcceptedWhenRedeemable(docs: seq<PromoDoc>, typed: string, d: PromoDoc, totalPrice: int, now: Time)
    requires Normalize(typed) != [] && FindByCode(docs, Normalize(typed)) == Some(d)
    requires Redeemable(d.promo, now)
    ensures ValidatePromoCode(docs, typed, totalPrice, now)
         == Accepted(d.promo.code, d.promo.discountType, d.promo.discountValue,
                     DiscountAmount(d.promo.discountType, d.promo.discountValue, totalPrice))
  {
  }

  /** Switching a code off makes its validation answer "no longer active",
      whatever else is true of it. */
  lemma DeactivatedCodeRejected(docs: seq<PromoDoc>, i: int, typed: string, totalPrice: int, now: Time)
    requires 0 <= i < |docs|
    requires forall j, k :: 0 <= j < k < |docs| ==> docs[j].id != docs[k].id && docs[j].promo.code != docs[k].promo.code
    requires docs[i].promo.code != [] && Normalize(typed) == docs[i].promo.code
    ensures ValidatePromoCode(SetActive(docs, docs[i].id, false), typed, totalPrice, now)
         == Rejected("Ce code promo n'est plus actif")
  {
    var after := SetActive(docs, docs[i].id, false);
    FindByCodeUnique(after, i);
  }

  /** Deleting a code makes its validation answer "invalid". */
  lemma DeletedCodeRejected(docs: seq<PromoDoc>, i: int, typed: string, totalPrice: int, now: Time)
    requires 0 <= i < |docs|
    requires forall j, k :: 0 <= j < k < |docs| ==> docs[j].promo.code != docs[k].promo.code
    requires docs[i].promo.code != [] && Normalize(typed) == docs[i].promo.code
    ensures ValidatePromoCode(WithoutId(docs, docs[i].id), typed, totalPrice, now) == Rejected("Code promo invalide")
  {
    var after := WithoutId(docs, docs[i].id);
    forall k | 0 <= k < |after|
      ensures after[k].promo.code != docs[i].promo.code
    {
      assert after[k] in docs && after[k].id != docs[i].id;
      var j :| 0 <= j < |docs| && docs[j] == after[k];
      assert j != i;
    }
  }
}
