/** The admin availability calendar of one accommodation: a list of selected
    days, toggled by clicking, and the set of blocked days shown on the
    calendar. Blocking or unblocking sends the selection to
    `updateAvailability` and, when that succeeds, updates the blocked set and
    clears the selection. */
module AvailabilityManager {
  import opened Common
  import opened Lists
  import opened Store
  import opened Accommodations

  /** The message shown when blocking or unblocking with nothing selected. */
  const NothingSelected: string := "Sélectionnez d'abord des dates"

  /** The days of a list, as a set. */
  function DaySet(days: seq<Day>): (r: set<Day>)
    ensures forall d :: d in r <==> d in days
  {
    set d | d in days
  }

  /** The entries sent for the selection: one per selected day, in the
      selection's order, all with the same `is_available` flag. */
  function Entries(selected: seq<Day>, isAvailable: bool): (dates: seq<DateEntry>)
    ensures |dates| == |selected|
    ensures forall i :: 0 <= i < |selected| ==> dates[i].date == selected[i] && dates[i].isAvailable == isAvailable
  {
    seq(|selected|, i requires 0 <= i < |selected| => DateEntry(selected[i], isAvailable))
  }

  /** A selection without repeated days sends no date twice, so the upsert
      never names the same row twice. */
  lemma EntriesDistinct(selected: seq<Day>, isAvailable: bool)
    requires Distinct(selected)
    ensures DistinctDates(Entries(selected, isAvailable))
  {
  }

  class Calendar {
    const accommodationId: Id
    /** The selected days, in the order they were clicked. */
    var selected: seq<Day>
    /** The days shown as blocked. */
    var blocked: set<Day>

    /** Clicking only ever adds a day that is not selected yet. */
    ghost predicate Valid()
      reads this
    {
      Distinct(selected)
    }

    /** The calendar opens with nothing selected and the stored unavailable
        days blocked. */
    constructor (accommodationId: Id, unavailableDates: seq<Day>)
      ensures Valid()
      ensures this.accommodationId == accommodationId
      ensures selected == [] && blocked == DaySet(unavailableDates)
    {
      this.accommodationId := accommodationId;
      selected := [];
      blocked := DaySet(unavailableDates);
    }

    /** `handleDayClick`: a selected day is unselected, another one is
        appended to the selection. */
    method HandleDayClick(day: Day)
      requires Valid()
      modifies this
      ensures Valid()
      ensures blocked == old(blocked)
      ensures selected == Toggle(old(selected), day)
    {
      ToggleKeepsDistinct(selected, day);
      selected := Toggle(selected, day);
    }

    /** `blockSelected`: the selected days are written unavailable; on
        success they join the blocked set and the selection is cleared. */
    method BlockSelected(db: Database, storeError: Option<string>) returns (r: Outcome<string>)
      requires Valid() && db.Valid()
      modifies this, db
      ensures Valid() && db.Valid()
      ensures old(selected) == [] ==> r == Fail(NothingSelected) && unchanged(db)
      ensures old(selected) != [] ==> r == (if storeError.Some? then Fail(storeError.value) else Pass)
      ensures r.Fail? ==> selected == old(selected) && blocked == old(blocked)
      ensures r.Fail? ==> db.availability == old(db.availability)
      ensures r.Pass? ==> selected == [] && blocked == old(blocked) + DaySet(old(selected))
      ensures r.Pass? ==> db.availability == ApplyUpserts(old(db.availability), UpsertRows(accommodationId, Entries(old(selected), false)))
      ensures db.accommodations == old(db.accommodations) && db.reservations == old(db.reservations)
    {
      if selected == [] {
        return Fail(NothingSelected);
      }
      var dates := Entries(selected, false);
      EntriesDistinct(selected, false);
      r := UpdateAvailability(db, accommodationId, dates, storeError);
      if r.Fail? {
        return;
      }
      var newBlocked := blocked;
      for i := 0 to |dates|
        invariant newBlocked == blocked + DaySet(selected[..i])
      {
        assert selected[..i + 1] == selected[..i] + [selected[i]];
        newBlocked := newBlocked + {dates[i].date};
      }
      assert selected[..|dates|] == selected;
      blocked := newBlocked;
      selected := [];
    }

    /** `unblockSelected`: the selected days are written available; on
        success they leave the blocked set and the selection is cleared. */
    method UnblockSelected(db: Database, storeError: Option<string>) returns (r: Outcome<string>)
      requires Valid() && db.Valid()
      modifies this, db
      ensures Valid() && db.Valid()
      ensures old(selected) == [] ==> r == Fail(NothingSelected) && unchanged(db)
      ensures old(selected) != [] ==> r == (if storeError.Some? then Fail(storeError.value) else Pass)
      ensures r.Fail? ==> selected == old(selected) && blocked == old(blocked)
      ensures r.Fail? ==> db.availability == old(db.availability)
      ensures r.Pass? ==> selected == [] && blocked == old(blocked) - DaySet(old(selected))
      ensures r.Pass? ==> db.availability == ApplyUpserts(old(db.availability), UpsertRows(accommodationId, Entries(old(selected), true)))
      ensures db.accommodations == old(db.accommodations) && db.reservations == old(db.reservations)
    {
      if selected == [] {
        return Fail(NothingSelected);
      }
      var dates := Entries(selected, true);
      EntriesDistinct(selected, true);
      r := UpdateAvailability(db, accommodationId, dates, storeError);
      if r.Fail? {
        return;
      }
      var newBlocked := blocked;
      for i := 0 to |dates|
        invariant newBlocked == blocked - DaySet(selected[..i])
      {
        assert selected[..i + 1] == selected[..i] + [selected[i]];
        newBlocked := newBlocked - {dates[i].date};
      }
      assert selected[..|dates|] == selected;
      blocked := newBlocked;
      selected := [];
    }
  }

  /** After a successful block, the store holds every selected day of the
      accommodation as unavailable and every other row as it was, so the
      calendar's blocked set and the store agree on the days just sent. */
  lemma BlockWritesSelection(availability: map<AvailabilityKey, bool>, accommodationId: Id, selected: seq<Day>)
    requires Distinct(selected)
    ensures var m := ApplyUpserts(availability, UpsertRows(accommodationId, Entries(selected, false)));
      && (forall d :: d in selected ==> (accommodationId, d) in m && !m[(accommodationId, d)])
      && (forall k :: k in availability && (k.0 != accommodationId || k.1 !in selected) ==> k in m && m[k] == availability[k])
  {
    var dates := Entries(selected, false);
    EntriesDistinct(selected, false);
    UpdateAvailabilityEffect(availability, accommodationId, dates);
    var m := ApplyUpserts(availability, UpsertRows(accommodationId, dates));
    forall d | d in selected
      ensures (accommodationId, d) in m && !m[(accommodationId, d)]
    {
      var i :| 0 <= i < |selected| && selected[i] == d;
      assert dates[i].date == d;
    }
    forall k | k in availability && (k.0 != accommodationId || k.1 !in selected)
      ensures k in m && m[k] == availability[k]
    {
      assert k.0 != accommodationId || forall i :: 0 <= i < |dates| ==> dates[i].date != k.1;
    }
  }

  /** After a successful unblock, every selected day of the accommodation is
      stored as available and every other row is as it was. */
  lemma UnblockWritesSelection(availability: map<AvailabilityKey, bool>, accommodationId: Id, selected: seq<Day>)
    requires Distinct(selected)
    ensures var m := ApplyUpserts(availability, UpsertRows(accommodationId, Entries(selected, true)));
      && (forall d :: d in selected ==> (accommodationId, d) in m && m[(accommodationId, d)])
      && (forall k :: k in availability && (k.0 != accommodationId || k.1 !in selected) ==> k in m && m[k] == availability[k])
  {
    var dates := Entries(selected, true);
    EntriesDistinct(selected, true);
    UpdateAvailabilityEffect(availability, accommodationId, dates);
    var m := ApplyUpserts(availability, UpsertRows(accommodationId, dates));
    forall d | d in selected
      ensures (accommodationId, d) in m && m[(accommodationId, d)]
    {
      var i :| 0 <= i < |selected| && selected[i] == d;
      assert dates[i].date == d;
    }
    forall k | k in availability && (k.0 != accommodationId || k.1 !in selected)
      ensures k in m && m[k] == availability[k]
    {
      assert k.0 != accommodationId || forall i :: 0 <= i < |dates| ==> dates[i].date != k.1;
    }
  }
}
