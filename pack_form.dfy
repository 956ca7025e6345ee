/** The admin pack form: the accommodations chosen for the pack are kept as
    a list of ids, toggled one by one, and sent joined with `,` in place of
    the form's `accommodation_ids` field. */
module PackForm {
  import opened Common
  import opened Lists
  import opened Text
  import opened Packs

  /** The message shown when submitting with no accommodation chosen. */
  const NoneSelected: string := "Sélectionnez au moins un hébergement"

  /** The form data sent: the fields as typed, with `accommodation_ids` set
      to the chosen ids joined with `,`. */
  function SubmittedFields(fields: PackFields, selectedIds: seq<string>): (sent: PackFields)
    ensures sent.accommodationIds.Some?
    ensures sent.(accommodationIds := fields.accommodationIds) == fields
  {
    fields.(accommodationIds := Some(Join(selectedIds, ',')))
  }

  /** The chosen ids come back from the store as chosen, in the same order,
      when each is non-empty, comma-free and without surrounding white
      space, as generated identifiers are. */
  lemma SubmittedIdsStored(fields: PackFields, selectedIds: seq<string>)
    requires forall k :: 0 <= k < |selectedIds| ==> IsListItem(selectedIds[k], ',')
    requires fields.images.Some? && fields.name.Some?
    ensures ReadPackFields(SubmittedFields(fields, selectedIds)).Ok?
    ensures ReadPackFields(SubmittedFields(fields, selectedIds)).value.accommodationIds == selectedIds
  {
    PackIdsRoundTrip(SubmittedFields(fields, selectedIds), selectedIds);
  }

  /** The form's outcome from the action's: `{ success: true }` or the
      error it returned. */
  function AsOutcome(r: Result<Id, string>): (o: Outcome<string>)
    ensures o.Pass? <==> r.Ok?
    ensures r.Err? ==> o == Fail(r.error)
  {
    if r.Ok? then Pass else Fail(r.error)
  }

  class Editor {
    /** The id of the pack being edited; `None` when creating one. */
    const packId: Option<Id>
    /** The chosen accommodation ids, in the order they were chosen. */
    var selectedIds: seq<string>

    /** The form opens with the pack's own accommodation ids, or none for a
        new pack. */
    constructor (pack: Option<(Id, Pack)>)
      ensures packId == (if pack.Some? then Some(pack.value.0) else None)
      ensures selectedIds == (if pack.Some? then pack.value.1.content.accommodationIds else [])
    {
      packId := if pack.Some? then Some(pack.value.0) else None;
      selectedIds := if pack.Some? then pack.value.1.content.accommodationIds else [];
    }

    /** `toggleAccommodation`: a chosen id is dropped everywhere, another one
        is appended. */
    method ToggleAccommodation(id: string)
      modifies this
      ensures selectedIds == Toggle(old(selectedIds), id)
    {
      selectedIds := Toggle(selectedIds, id);
    }

    /** `handleSubmit`: with nothing chosen, an error and no call; otherwise
        the chosen ids are joined into the form data, which goes to
        `updatePack` when editing and to `createPack` when creating. */
    method HandleSubmit(store: PackStore, fields: PackFields, now: Time, storeError: Option<string>)
      returns (r: Outcome<string>)
      requires store.Valid()
      modifies store
      ensures store.Valid()
      ensures store.requests == old(store.requests)
      ensures selectedIds == [] ==> r == Fail(NoneSelected) && unchanged(store)
      ensures r.Fail? ==> store.packs == old(store.packs)
      ensures selectedIds != [] && packId.None? ==>
        var sent := ReadPackFields(SubmittedFields(fields, selectedIds));
        && (r.Pass? <==> sent.Ok? && storeError.None?)
        && (r.Pass? ==> store.packs == old(store.packs)[old(store.nextId) := Pack(sent.value, "active", now, now)])
      ensures selectedIds != [] && packId.Some? ==>
        var sent := ReadPackFields(SubmittedFields(fields, selectedIds));
        && (r.Pass? <==> sent.Ok? && packId.value in old(store.packs) && storeError.None?)
        && (r.Pass? ==> store.packs == old(store.packs)[packId.value :=
              Pack(sent.value, OrElse(fields.status, "active"), old(store.packs)[packId.value].createdAt, now)])
    {
      if selectedIds == [] {
        return Fail(NoneSelected);
      }
      var sent := SubmittedFields(fields, selectedIds);
      if packId.Some? {
        r := store.UpdatePack(packId.value, sent, now, storeError);
      } else {
        var created := store.CreatePack(sent, now, storeError);
        r := AsOutcome(created);
      }
    }
  }
}
