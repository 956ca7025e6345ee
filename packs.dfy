/** The pack server actions over the `packs` and `pack_requests`
    collections. Every action but the last catches what is thrown inside it
    and returns it as an error; a form field that is missing makes the
    string methods throw, which is how a missing field surfaces. */
module Packs {
  import opened Common
  import opened Text
  import opened Utils

  /** The fields of a pack form as `formData.get` returns them: absent
      fields are `None` (`null`). */
  datatype PackFields = PackFields(
    name: Option<string>,
    packType: Option<string>,
    shortDescription: Option<string>,
    description: Option<string>,
    accommodationIds: Option<string>,
    images: Option<string>,
    featured: Option<string>,
    status: Option<string>)

  /** The columns a pack form writes, as read from the fields. The `slug`
      column is written with the name, as `GenerateSlug(name)`, and is not
      stored here. */
  datatype PackContent = PackContent(
    name: string,
    packType: Option<string>,
    shortDescription: string,
    description: Option<string>,
    accommodationIds: seq<string>,
    images: seq<string>,
    featured: bool)

  /** A `packs` document. */
  datatype Pack = Pack(content: PackContent, status: string, createdAt: Time, updatedAt: Time)

  datatype PackRequestStatus = Nouveau | Traite | Annule

  /** A `pack_requests` document. */
  datatype PackRequest = PackRequest(
    packName: Option<string>,
    firstName: Option<string>,
    lastName: Option<string>,
    email: Option<string>,
    phone: Option<string>,
    eventDate: Option<string>,
    guests: Option<Num>,
    message: Option<string>,
    promoCode: Option<string>,
    status: PackRequestStatus,
    createdAt: Time)

  /** The fields of the public pack request form. */
  datatype RequestFields = RequestFields(
    packName: Option<string>,
    firstName: Option<string>,
    lastName: Option<string>,
    email: Option<string>,
    phone: Option<string>,
    eventDate: Option<string>,
    guests: Option<string>,
    message: Option<string>,
    promoCode: Option<string>)

  /** What `null.split(...)` and `null.toLowerCase()` throw. */
  const NullSplit: string := "Cannot read properties of null (reading 'split')"
  const NullLowerCase: string := "Cannot read properties of null (reading 'toLowerCase')"

  /** What updating a document that does not exist throws, without the
      document path Firestore appends to it. */
  const NotFound: string := "5 NOT_FOUND: No document to update"

  /** `e.message || fallback`. */
  function CaughtMessage(message: string, fallback: string): (m: string)
    ensures m != [] || fallback == []
    ensures message != [] ==> m == message
    ensures message == [] ==> m == fallback
  {
    if message != [] then message else fallback
  }

  /** Reading the pack form, in the order the action reads it: the
      accommodation ids (split on `,`), the images (split on newlines), then
      the slug of the name. A missing one of these throws. */
  function ReadPackFields(fields: PackFields): (r: Result<PackContent, string>)
    ensures fields.accommodationIds.None? ==> r == Err(NullSplit)
    ensures fields.accommodationIds.Some? && fields.images.None? ==> r == Err(NullSplit)
    ensures fields.accommodationIds.Some? && fields.images.Some? && fields.name.None? ==> r == Err(NullLowerCase)
    ensures r.Ok? <==> fields.accommodationIds.Some? && fields.images.Some? && fields.name.Some?
  {
    if fields.accommodationIds.None? || fields.images.None? then Err(NullSplit)
    else if fields.name.None? then Err(NullLowerCase)
    else
      var name := fields.name.value;
      Ok(PackContent(
        name := name,
        packType := fields.packType,
        shortDescription := OrElse(fields.shortDescription, ""),
        description := OrNull(fields.description),
        accommodationIds := ParseList(fields.accommodationIds.value, ','),
        images := ParseList(fields.images.value, '\n'),
        featured := fields.featured == Some("true")))
  }

  /** What a successful read holds: a well-formed slug of the name, the
      ids parsed from the comma list and the images from the lines, neither
      with empty entries, surrounding white space or separators, the pack
      type as sent, `featured` exactly when the checkbox sent `'true'`, an
      empty short description and a `null` description when absent. */
  lemma PackContentFacts(fields: PackFields)
    requires ReadPackFields(fields).Ok?
    ensures var c := ReadPackFields(fields).value;
      && c.name == fields.name.value && c.packType == fields.packType
      && IsSlug(GenerateSlug(c.name))
      && c.accommodationIds == ParseList(fields.accommodationIds.value, ',')
      && c.images == ParseList(fields.images.value, '\n')
      && (forall k :: 0 <= k < |c.accommodationIds| ==> IsListItem(c.accommodationIds[k], ','))
      && (forall k :: 0 <= k < |c.images| ==> IsListItem(c.images[k], '\n'))
      && (c.featured <==> fields.featured == Some("true"))
      && c.shortDescription == OrElse(fields.shortDescription, "")
      && c.description == OrNull(fields.description)
      && (c.description.Some? <==> Truthy(fields.description))
  {
  }

  /** Ids joined with `,` are read back as the same ids, in the same order. */
  lemma PackIdsRoundTrip(fields: PackFields, ids: seq<string>)
    requires forall k :: 0 <= k < |ids| ==> IsListItem(ids[k], ',')
    requires fields.accommodationIds == Some(Join(ids, ',')) && fields.images.Some? && fields.name.Some?
    ensures ReadPackFields(fields).Ok? && ReadPackFields(fields).value.accommodationIds == ids
  {
    ParseJoin(ids, ',');
  }

  /** The stored request: empty optional text becomes `null`, `guests` is
      `Number(guests)` when the field is non-empty and `null` otherwise, and
      the status is `nouveau`. */
  function NewRequest(fields: RequestFields, now: Time): (q: PackRequest)
    ensures q.status == Nouveau && q.createdAt == now
    ensures q.packName == fields.packName && q.firstName == fields.firstName && q.lastName == fields.lastName
    ensures q.email == fields.email && q.phone == fields.phone
    ensures q.eventDate.Some? <==> Truthy(fields.eventDate)
    ensures q.eventDate.Some? ==> q.eventDate == fields.eventDate
    ensures q.message.Some? <==> Truthy(fields.message)
    ensures q.message.Some? ==> q.message == fields.message
    ensures q.promoCode.Some? <==> Truthy(fields.promoCode)
    ensures q.promoCode.Some? ==> q.promoCode == fields.promoCode
    ensures q.guests.Some? <==> Truthy(fields.guests)
    ensures q.guests.Some? ==> q.guests.value == ToNumber(fields.guests.value)
  {
    PackRequest(
      packName := fields.packName,
      firstName := fields.firstName,
      lastName := fields.lastName,
      email := fields.email,
      phone := fields.phone,
      eventDate := OrNull(fields.eventDate),
      guests := if Truthy(fields.guests) then Some(ToNumber(fields.guests.value)) else None,
      message := OrNull(fields.message),
      promoCode := OrNull(fields.promoCode),
      status := Nouveau,
      createdAt := now)
  }

  /** A guest count typed as a decimal numeral is stored as that count; an
      empty field is stored as `null`, not as 0. */
  lemma GuestsField(fields: RequestFields, now: Time, n: nat)
    ensures NewRequest(fields.(guests := Some(DecimalString(n))), now).guests == Some(Finite(n))
    ensures NewRequest(fields.(guests := Some("")), now).guests == None
    ensures NewRequest(fields.(guests := None), now).guests == None
  {
    ToNumberOfDecimal(n);
  }

  /** The `packs` and `pack_requests` collections. */
  class PackStore {
    var packs: map<Id, Pack>
    var requests: map<Id, PackRequest>
    /** The next identifier a new document gets. */
    var nextId: Id

    ghost predicate Valid()
      reads this
    {
      && (forall id :: id in packs ==> id < nextId)
      && (forall id :: id in requests ==> id < nextId)
    }

    constructor ()
      ensures Valid() && packs == map[] && requests == map[]
    {
      packs, requests, nextId := map[], map[], 0;
    }

    /** `createPack`: the form read, then one new document, always
        `active`, created and updated now. */
    method CreatePack(fields: PackFields, now: Time, storeError: Option<string>) returns (r: Result<Id, string>)
      requires Valid()
      modifies this
      ensures Valid()
      ensures requests == old(requests)
      ensures ReadPackFields(fields).Err? ==> r == Err(ReadPackFields(fields).error) && packs == old(packs)
      ensures ReadPackFields(fields).Ok? && storeError.Some? ==>
        r == Err(CaughtMessage(storeError.value, "Erreur lors de la création")) && packs == old(packs)
      ensures ReadPackFields(fields).Ok? && storeError.None? ==>
        && r == Ok(old(nextId)) && old(nextId) !in old(packs)
        && packs == old(packs)[old(nextId) := Pack(ReadPackFields(fields).value, "active", now, now)]
    {
      var content := ReadPackFields(fields);
      if content.Err? {
        return Err(content.error);
      }
      r := InsertPack(content.value, now, storeError);
    }

    /** The write of `createPack`, once the form has been read. */
    method InsertPack(content: PackContent, now: Time, storeError: Option<string>) returns (r: Result<Id, string>)
      requires Valid()
      modifies this
      ensures Valid()
      ensures requests == old(requests)
      ensures storeError.Some? ==>
        r == Err(CaughtMessage(storeError.value, "Erreur lors de la création")) && packs == old(packs)
      ensures storeError.None? ==>
        && r == Ok(old(nextId)) && old(nextId) !in old(packs)
        && packs == old(packs)[old(nextId) := Pack(content, "active", now, now)]
    {
      var id := nextId;
      nextId := nextId + 1;
      if storeError.Some? {
        return Err(CaughtMessage(storeError.value, "Erreur lors de la création"));
      }
      packs := packs[id := Pack(content, "active", now, now)];
      return Ok(id);
    }

    /** `updatePack`: the form read, then the document rewritten with the
        given status or `active`; its creation time is kept. */
    method UpdatePack(id: Id, fields: PackFields, now: Time, storeError: Option<string>) returns (r: Outcome<string>)
      requires Valid()
      modifies this
      ensures Valid()
      ensures requests == old(requests) && nextId == old(nextId)
      ensures r.Fail? ==> packs == old(packs)
      ensures ReadPackFields(fields).Err? ==> r == Fail(ReadPackFields(fields).error)
      ensures ReadPackFields(fields).Ok? && id !in old(packs) ==> r == Fail(NotFound)
      ensures ReadPackFields(fields).Ok? && id in old(packs) && storeError.Some? ==>
        r == Fail(CaughtMessage(storeError.value, "Erreur lors de la mise à jour"))
      ensures ReadPackFields(fields).Ok? && id in old(packs) && storeError.None? ==>
        && r == Pass
        && packs == old(packs)[id := Pack(ReadPackFields(fields).value, OrElse(fields.status, "active"),
                                          old(packs)[id].createdAt, now)]
    {
      var content := ReadPackFields(fields);
      if content.Err? {
        return Fail(content.error);
      }
      r := ReplacePack(id, content.value, OrElse(fields.status, "active"), now, storeError);
    }

    /** The write of `updatePack`, once the form has been read. */
    method ReplacePack(id: Id, content: PackContent, status: string, now: Time, storeError: Option<string>)
      returns (r: Outcome<string>)
      requires Valid()
      modifies this
      ensures Valid()
      ensures requests == old(requests) && nextId == old(nextId)
      ensures r.Fail? ==> packs == old(packs)
      ensures id !in old(packs) ==> r == Fail(NotFound)
      ensures id in old(packs) && storeError.Some? ==>
        r == Fail(CaughtMessage(storeError.value, "Erreur lors de la mise à jour"))
      ensures id in old(packs) && storeError.None? ==>
        r == Pass && packs == old(packs)[id := Pack(content, status, old(packs)[id].createdAt, now)]
    {
      if id !in packs {
        return Fail(NotFound);
      }
      if storeError.Some? {
        return Fail(CaughtMessage(storeError.value, "Erreur lors de la mise à jour"));
      }
      packs := packs[id := Pack(content, status, packs[id].createdAt, now)];
      return Pass;
    }

    /** `deletePack`: a soft delete, only the status (to `inactive`) and the
        update time change. */
    method DeletePack(id: Id, now: Time, storeError: Option<string>) returns (r: Outcome<string>)
      requires Valid()
      modifies this
      ensures Valid()
      ensures requests == old(requests) && nextId == old(nextId)
      ensures r.Fail? ==> packs == old(packs)
      ensures id !in old(packs) ==> r == Fail(NotFound)
      ensures id in old(packs) && storeError.Some? ==>
        r == Fail(CaughtMessage(storeError.value, "Erreur lors de la suppression"))
      ensures id in old(packs) && storeError.None? ==>
        && r == Pass
        && packs == old(packs)[id := old(packs)[id].(status := "inactive", updatedAt := now)]
    {
      if id !in packs {
        return Fail(NotFound);
      }
      if storeError.Some? {
        return Fail(CaughtMessage(storeError.value, "Erreur lors de la suppression"));
      }
      packs := packs[id := packs[id].(status := "inactive", updatedAt := now)];
      return Pass;
    }

    /** `requestPack`: one new request document with status `nouveau`. The
        notification e-mail cannot fail the action. */
    method RequestPack(fields: RequestFields, now: Time, storeError: Option<string>) returns (r: Outcome<string>)
      requires Valid()
      modifies this
      ensures Valid()
      ensures packs == old(packs)
      ensures storeError.Some? ==>
        r == Fail(CaughtMessage(storeError.value, "Erreur lors de l'envoi")) && requests == old(requests)
      ensures storeError.None? ==>
        && r == Pass && old(nextId) !in old(requests)
        && requests == old(requests)[old(nextId) := NewRequest(fields, now)]
    {
      if storeError.Some? {
        return Fail(CaughtMessage(storeError.value, "Erreur lors de l'envoi"));
      }
      requests := requests[nextId := NewRequest(fields, now)];
      nextId := nextId + 1;
      return Pass;
    }

    /** `updatePackRequestStatus`: the request is marked handled or
        cancelled. It catches nothing: a missing document rejects the call. */
    method UpdatePackRequestStatus(id: Id, status: PackRequestStatus) returns (r: Outcome<string>)
      requires Valid()
      requires status != Nouveau
      modifies this
      ensures Valid()
      ensures packs == old(packs) && nextId == old(nextId)
      ensures id !in old(requests) ==> r == Fail(NotFound) && requests == old(requests)
      ensures id in old(requests) ==> r == Pass && requests == old(requests)[id := old(requests)[id].(status := status)]
    {
      if id !in requests {
        return Fail(NotFound);
      }
      requests := requests[id := requests[id].(status := status)];
      return Pass;
    }
  }
}
