/** The availability engine of `GET /availability`: a fixed evening grid of
    half-hour slots, each kept when fewer than `max_reservations` existing
    bookings fall within 89 minutes of it.

    Instants are integer milliseconds. `day` is the instant at which the
    requested date's local clock reads 00:00, so on a day without a
    daylight-saving change the slot `hh:mm` of that date is
    `day + (60 * hh + mm) * 60000`; parsing the date string is not
    modelled. The reservations are the ones the store already returned
    for that date, as instants. */
module Availability {
  import opened Js
  import opened Http

  const MsPerMinute: int := 60000
  /** The grid loops run `for (hour = 17; hour < 22; hour++)` and
      `for (minute = 0; minute < 60; minute += 30)`. */
  const FirstHour: int := 17
  const EndHour: int := 22
  const StepMinutes: int := 30
  /** A reservation conflicts with a slot when it is at most this many
      minutes before or after it. */
  const HalfWindow: int := 89

  datatype Slot = Slot(hour: int, minute: int)

  function MinuteOfDay(s: Slot): int {
    60 * s.hour + s.minute
  }

  /** The instant of slot `s` on the day that starts at `day`. */
  function SlotInstant(day: int, s: Slot): int {
    day + MinuteOfDay(s) * MsPerMinute
  }

  /** The candidate slots, in the order the nested loops generate them. */
  function Grid(): seq<Slot> {
    seq(2 * (EndHour - FirstHour), i => Slot(FirstHour + i / 2, StepMinutes * (i % 2)))
  }

  /** Strictly increasing time of day. */
  predicate Chronological(slots: seq<Slot>) {
    forall i, j :: 0 <= i < j < |slots| ==> MinuteOfDay(slots[i]) < MinuteOfDay(slots[j])
  }

  /** `a` is `b` with some elements left out, the rest in their order. */
  predicate Subsequence<T(==)>(a: seq<T>, b: seq<T>)
    decreases |b|
  {
    if a == [] then true
    else if b == [] then false
    else (a[0] == b[0] && Subsequence(a[1..], b[1..])) || Subsequence(a, b[1..])
  }

  /** The grid is exactly the ten half-hour times from 17:00 to 21:30, in
      chronological order, 30 minutes apart. */
  lemma GridSlots()
    ensures Grid() == [Slot(17, 0), Slot(17, 30), Slot(18, 0), Slot(18, 30), Slot(19, 0),
                       Slot(19, 30), Slot(20, 0), Slot(20, 30), Slot(21, 0), Slot(21, 30)]
    ensures forall i :: 0 < i < |Grid()| ==> MinuteOfDay(Grid()[i]) == MinuteOfDay(Grid()[i - 1]) + StepMinutes
    ensures Chronological(Grid())
  {
  }

  /** The source's test on `diffMinutes = (slot - reservationTime) / (1000 * 60)`,
      computed exactly: `diffMinutes >= -89 && diffMinutes <= 89`. It is the
      same as an exact test on milliseconds. */
  predicate InWindow(slotAt: int, at: int)
    ensures InWindow(slotAt, at) <==> -HalfWindow * MsPerMinute <= slotAt - at <= HalfWindow * MsPerMinute
  {
    var diffMinutes := (slotAt - at) as real / MsPerMinute as real;
    -HalfWindow as real <= diffMinutes <= HalfWindow as real
  }

  /** A reservation 89 minutes away, before or after, conflicts; one 90
      minutes away does not, and neither does one a millisecond beyond 89
      minutes. A reservation at the slot itself conflicts. */
  lemma WindowBoundary(slotAt: int)
    ensures InWindow(slotAt, slotAt)
    ensures InWindow(slotAt, slotAt - 89 * MsPerMinute) && InWindow(slotAt, slotAt + 89 * MsPerMinute)
    ensures !InWindow(slotAt, slotAt - 90 * MsPerMinute) && !InWindow(slotAt, slotAt + 90 * MsPerMinute)
    ensures !InWindow(slotAt, slotAt - 89 * MsPerMinute - 1) && !InWindow(slotAt, slotAt + 89 * MsPerMinute + 1)
  {
  }

  /** `reservations.filter(...)`: the reservations that conflict with the
      slot at `slotAt`, in their order. */
  function Conflicting(slotAt: int, reservations: seq<int>): (c: seq<int>)
    ensures |c| <= |reservations|
    ensures forall x :: x in c <==> x in reservations && InWindow(slotAt, x)
    ensures forall x :: multiset(c)[x] == if InWindow(slotAt, x) then multiset(reservations)[x] else 0
    ensures Subsequence(c, reservations)
  {
    if reservations == [] then []
    else
      var head, tail := reservations[0], reservations[1..];
      assert reservations == [head] + tail;
      var rest := Conflicting(slotAt, tail);
      if InWindow(slotAt, head) then
        assert ([head] + rest)[1..] == rest;
        [head] + rest
      else rest
  }

  /** `.length` of the filtered list: at most the number of reservations,
      and zero exactly when none of them is within the window. */
  function ConflictCount(slotAt: int, reservations: seq<int>): (n: nat)
    ensures n <= |reservations|
    ensures n == 0 <==> forall x :: x in reservations ==> !InWindow(slotAt, x)
  {
    var c := Conflicting(slotAt, reservations);
    if c == [] then
      assert forall x :: x in reservations ==> !InWindow(slotAt, x) by {
        forall x | x in reservations ensures !InWindow(slotAt, x) {
          assert x !in c;
        }
      }
      0
    else
      assert c[0] in c;
      assert c[0] in reservations && InWindow(slotAt, c[0]);
      |c|
  }

  lemma {:induction false} ConflictingAppend(slotAt: int, a: seq<int>, b: seq<int>)
    ensures Conflicting(slotAt, a + b) == Conflicting(slotAt, a) + Conflicting(slotAt, b)
  {
    if a == [] {
      assert a + b == b;
    } else {
      assert (a + b)[0] == a[0] && (a + b)[1..] == a[1..] + b;
      ConflictingAppend(slotAt, a[1..], b);
    }
  }

  /** One more reservation raises a slot's count by one when it is within
      the window and leaves it alone otherwise, wherever it is inserted. */
  lemma ConflictCountInsert(slotAt: int, reservations: seq<int>, i: int, at: int)
    requires 0 <= i <= |reservations|
    ensures ConflictCount(slotAt, reservations[..i] + [at] + reservations[i..])
         == ConflictCount(slotAt, reservations) + (if InWindow(slotAt, at) then 1 else 0)
  {
    var before, after := reservations[..i], reservations[i..];
    assert reservations == before + after;
    ConflictingAppend(slotAt, before + [at], after);
    ConflictingAppend(slotAt, before, [at]);
    ConflictingAppend(slotAt, before, after);
    assert [at][1..] == [];
    assert |Conflicting(slotAt, [at])| == if InWindow(slotAt, at) then 1 else 0;
  }

  /** The count depends only on which reservations there are, not on the
      order the store returns them in. */
  lemma {:induction false} ConflictCountPermutation(slotAt: int, a: seq<int>, b: seq<int>)
    requires multiset(a) == multiset(b)
    ensures ConflictCount(slotAt, a) == ConflictCount(slotAt, b)
    decreases |a|
  {
    if a == [] {
      assert |b| == |multiset(b)| == 0;
    } else {
      var x := a[0];
      assert x in multiset(b);
      var j :| 0 <= j < |b| && b[j] == x;
      var rest := b[..j] + b[j + 1..];
      assert b == b[..j] + [x] + b[j + 1..];
      assert a == [x] + a[1..];
      assert multiset(b) == multiset(b[..j]) + multiset([x]) + multiset(b[j + 1..]);
      assert multiset(a) == multiset([x]) + multiset(a[1..]);
      assert multiset(rest) == multiset(b[..j]) + multiset(b[j + 1..]);
      assert multiset(a[1..]) == multiset(a) - multiset{x};
      assert multiset(rest) == multiset(b) - multiset{x};
      ConflictCountPermutation(slotAt, a[1..], rest);
      ConflictingAppend(slotAt, [x], a[1..]);
      ConflictingAppend(slotAt, b[..j] + [x], b[j + 1..]);
      ConflictingAppend(slotAt, b[..j], [x]);
      ConflictingAppend(slotAt, b[..j], b[j + 1..]);
    }
  }

  /** The threshold rule: `conflictingReservations < maxReservations`. No
      slot is open without capacity, and every slot is open when the
      capacity exceeds the number of reservations. */
  predicate Open(day: int, reservations: seq<int>, maxReservations: int, s: Slot)
    ensures maxReservations <= 0 ==> !Open(day, reservations, maxReservations, s)
    ensures maxReservations > |reservations| ==> Open(day, reservations, maxReservations, s)
  {
    ConflictCount(SlotInstant(day, s), reservations) < maxReservations
  }

  /** The candidates that pass the threshold rule, in their order. */
  function Keep(day: int, reservations: seq<int>, maxReservations: int, candidates: seq<Slot>): (r: seq<Slot>)
    ensures forall s :: s in r <==> s in candidates && Open(day, reservations, maxReservations, s)
    ensures Subsequence(r, candidates)
  {
    if candidates == [] then []
    else
      var rest := Keep(day, reservations, maxReservations, candidates[1..]);
      if Open(day, reservations, maxReservations, candidates[0]) then [candidates[0]] + rest else rest
  }

  /** The slots `GET /availability` returns: a slot of the grid appears
      exactly when its conflict count is below `maxReservations`, and the
      answer is the grid with the other slots left out. */
  function Available(day: int, reservations: seq<int>, maxReservations: int): (slots: seq<Slot>)
    ensures forall s :: s in slots <==> s in Grid() && Open(day, reservations, maxReservations, s)
    ensures Subsequence(slots, Grid())
  {
    Keep(day, reservations, maxReservations, Grid())
  }

  lemma {:induction false} KeepAppend(day: int, reservations: seq<int>, maxReservations: int, a: seq<Slot>, b: seq<Slot>)
    ensures Keep(day, reservations, maxReservations, a + b)
         == Keep(day, reservations, maxReservations, a) + Keep(day, reservations, maxReservations, b)
  {
    if a == [] {
      assert a + b == b;
    } else {
      assert (a + b)[0] == a[0] && (a + b)[1..] == a[1..] + b;
      KeepAppend(day, reservations, maxReservations, a[1..], b);
    }
  }

  /** Every element of a subsequence is an element of the whole. */
  lemma {:induction false} SubsequenceMembers<T>(a: seq<T>, b: seq<T>)
    requires Subsequence(a, b)
    ensures forall x :: x in a ==> x in b
    decreases |b|
  {
    if a != [] {
      assert b == [b[0]] + b[1..];
      if a[0] == b[0] && Subsequence(a[1..], b[1..]) {
        SubsequenceMembers(a[1..], b[1..]);
        assert a == [a[0]] + a[1..];
      } else {
        SubsequenceMembers(a, b[1..]);
      }
    }
  }

  /** Leaving slots out of a chronological list keeps it chronological. */
  lemma {:induction false} SubsequenceChronological(a: seq<Slot>, b: seq<Slot>)
    requires Subsequence(a, b) && Chronological(b)
    ensures Chronological(a)
    decreases |b|
  {
    if a != [] {
      var tail := b[1..];
      assert Chronological(tail) by {
        forall i, j | 0 <= i < j < |tail| ensures MinuteOfDay(tail[i]) < MinuteOfDay(tail[j]) {
          assert tail[i] == b[i + 1] && tail[j] == b[j + 1];
        }
      }
      if a[0] == b[0] && Subsequence(a[1..], tail) {
        SubsequenceChronological(a[1..], tail);
        SubsequenceMembers(a[1..], tail);
        forall i, j | 0 <= i < j < |a| ensures MinuteOfDay(a[i]) < MinuteOfDay(a[j]) {
          assert a[j] == a[1..][j - 1] && a[j] in tail;
          var k :| 0 <= k < |tail| && tail[k] == a[j];
          assert b[k + 1] == a[j];
          if i > 0 {
            assert a[i] == a[1..][i - 1];
          }
        }
      } else {
        SubsequenceChronological(a, tail);
      }
    }
  }

  /** The answer is in chronological order. */
  lemma AvailableChronological(day: int, reservations: seq<int>, maxReservations: int)
    ensures Chronological(Available(day, reservations, maxReservations))
  {
    GridSlots();
    SubsequenceChronological(Available(day, reservations, maxReservations), Grid());
  }

  lemma {:induction false} KeepAll(day: int, reservations: seq<int>, maxReservations: int, candidates: seq<Slot>)
    requires forall s :: s in candidates ==> Open(day, reservations, maxReservations, s)
    ensures Keep(day, reservations, maxReservations, candidates) == candidates
  {
    if candidates != [] {
      KeepAll(day, reservations, maxReservations, candidates[1..]);
    }
  }

  lemma {:induction false} KeepNone(day: int, reservations: seq<int>, maxReservations: int, candidates: seq<Slot>)
    requires forall s :: s in candidates ==> !Open(day, reservations, maxReservations, s)
    ensures Keep(day, reservations, maxReservations, candidates) == []
  {
    if candidates != [] {
      KeepNone(day, reservations, maxReservations, candidates[1..]);
    }
  }

  /** A day without reservations has every slot open as soon as one
      reservation per slot is allowed. */
  lemma EmptyDayHasEverySlot(day: int, maxReservations: int)
    requires maxReservations >= 1
    ensures Available(day, [], maxReservations) == Grid()
  {
    KeepAll(day, [], maxReservations, Grid());
  }

  /** With a capacity of zero or less no slot is ever open. */
  lemma NoCapacityNoSlot(day: int, reservations: seq<int>, maxReservations: int)
    requires maxReservations <= 0
    ensures Available(day, reservations, maxReservations) == []
  {
    KeepNone(day, reservations, maxReservations, Grid());
  }

  /** Where every slot open under the second setting is also open under
      the first, the second answer is a subsequence of the first. */
  lemma {:induction false} KeepMonotone(day: int, rs1: seq<int>, max1: int, rs2: seq<int>, max2: int, candidates: seq<Slot>)
    requires forall s :: s in candidates && Open(day, rs2, max2, s) ==> Open(day, rs1, max1, s)
    ensures Subsequence(Keep(day, rs2, max2, candidates), Keep(day, rs1, max1, candidates))
  {
    if candidates != [] {
      var c := candidates[0];
      KeepMonotone(day, rs1, max1, rs2, max2, candidates[1..]);
      var k1 := Keep(day, rs1, max1, candidates[1..]);
      var k2 := Keep(day, rs2, max2, candidates[1..]);
      if Open(day, rs2, max2, c) {
        assert ([c] + k2)[1..] == k2 && ([c] + k1)[1..] == k1;
      } else if Open(day, rs1, max1, c) {
        assert ([c] + k1)[1..] == k1;
      }
    }
  }

  /** Booking one more reservation, anywhere in the list, never opens a
      slot: the new answer is a subsequence of the old one. */
  lemma NewReservationNeverOpensSlot(day: int, reservations: seq<int>, maxReservations: int, i: int, at: int)
    requires 0 <= i <= |reservations|
    ensures Subsequence(Available(day, reservations[..i] + [at] + reservations[i..], maxReservations),
                        Available(day, reservations, maxReservations))
  {
    var more := reservations[..i] + [at] + reservations[i..];
    forall s | s in Grid() && Open(day, more, maxReservations, s)
      ensures Open(day, reservations, maxReservations, s)
    {
      ConflictCountInsert(SlotInstant(day, s), reservations, i, at);
    }
    KeepMonotone(day, reservations, maxReservations, more, maxReservations, Grid());
  }

  /** Raising `max_reservations` never closes a slot. */
  lemma RaisedCapacityNeverClosesSlot(day: int, reservations: seq<int>, max1: int, max2: int)
    requires max1 <= max2
    ensures Subsequence(Available(day, reservations, max1), Available(day, reservations, max2))
  {
    KeepMonotone(day, reservations, max2, reservations, max1, Grid());
  }

  /** The answer does not depend on the order of the reservations. */
  lemma ReservationOrderIrrelevant(day: int, rs1: seq<int>, rs2: seq<int>, maxReservations: int)
    requires multiset(rs1) == multiset(rs2)
    ensures Available(day, rs1, maxReservations) == Available(day, rs2, maxReservations)
  {
    forall s | s in Grid() ensures Open(day, rs1, maxReservations, s) == Open(day, rs2, maxReservations, s) {
      ConflictCountPermutation(SlotInstant(day, s), rs1, rs2);
    }
    KeepMonotone(day, rs1, maxReservations, rs2, maxReservations, Grid());
    KeepMonotone(day, rs2, maxReservations, rs1, maxReservations, Grid());
    SubsequenceAntisymmetric(Available(day, rs1, maxReservations), Available(day, rs2, maxReservations));
  }

  lemma {:induction false} SubsequenceLength<T>(a: seq<T>, b: seq<T>)
    requires Subsequence(a, b)
    ensures |a| <= |b|
    decreases |b|
  {
    if a != [] {
      if a[0] == b[0] && Subsequence(a[1..], b[1..]) {
        SubsequenceLength(a[1..], b[1..]);
      } else {
        SubsequenceLength(a, b[1..]);
      }
    }
  }

  lemma {:induction false} SubsequenceOfSameLength<T>(a: seq<T>, b: seq<T>)
    requires Subsequence(a, b) && |a| == |b|
    ensures a == b
    decreases |b|
  {
    if a != [] {
      if a[0] == b[0] && Subsequence(a[1..], b[1..]) {
        SubsequenceOfSameLength(a[1..], b[1..]);
      } else {
        SubsequenceLength(a, b[1..]);
      }
    }
  }

  lemma SubsequenceAntisymmetric<T>(a: seq<T>, b: seq<T>)
    requires Subsequence(a, b) && Subsequence(b, a)
    ensures a == b
  {
    SubsequenceLength(a, b);
    SubsequenceLength(b, a);
    SubsequenceOfSameLength(a, b);
  }

  /** With room for one reservation per slot and one booking at `at`, a
      grid slot is open exactly when the booking is more than 89 minutes
      away from it. */
  lemma SingleBookingBlocksItsWindow(day: int, at: int, s: Slot)
    requires s in Grid()
    ensures s in Available(day, [at], 1) <==> !InWindow(SlotInstant(day, s), at)
  {
    assert [at][1..] == [];
  }

  /** With room for one reservation per slot, a booking at a slot's own
      time closes that slot. */
  lemma BookedSlotCloses(day: int, s: Slot)
    requires s in Grid()
    ensures s !in Available(day, [SlotInstant(day, s)], 1)
  {
    WindowBoundary(SlotInstant(day, s));
    SingleBookingBlocksItsWindow(day, SlotInstant(day, s), s);
  }

  /** On any day, one booking at 19:00 closes 19:00 when one reservation
      per slot is allowed. */
  lemma NineteenHundredTaken(day: int)
    ensures Slot(19, 0) !in Available(day, [SlotInstant(day, Slot(19, 0))], 1)
  {
    GridSlots();
    BookedSlotCloses(day, Slot(19, 0));
  }

  /** Slot `hour:minute` of the loops is at position
      `2 * (hour - 17) + minute / 30` of the grid. */
  lemma GridAt(hour: int, minute: int)
    requires FirstHour <= hour < EndHour && (minute == 0 || minute == StepMinutes)
    ensures 0 <= 2 * (hour - FirstHour) + minute / StepMinutes < |Grid()|
    ensures Grid()[2 * (hour - FirstHour) + minute / StepMinutes] == Slot(hour, minute)
  {
  }

  /** One more candidate of the grid extends the answer by that slot when
      it is open. */
  lemma KeepStep(day: int, reservations: seq<int>, maxReservations: int, k: int)
    requires 0 <= k < |Grid()|
    ensures Keep(day, reservations, maxReservations, Grid()[..k + 1])
         == Keep(day, reservations, maxReservations, Grid()[..k])
          + (if Open(day, reservations, maxReservations, Grid()[k]) then [Grid()[k]] else [])
  {
    var g := Grid();
    assert g[..k + 1] == g[..k] + [g[k]];
    KeepAppend(day, reservations, maxReservations, g[..k], [g[k]]);
    assert [g[k]][1..] == [];
  }

  /** The handler's nested loops, building `availableSlots` slot by slot. */
  method ComputeAvailableSlots(day: int, reservations: seq<int>, maxReservations: int) returns (availableSlots: seq<Slot>)
    ensures availableSlots == Available(day, reservations, maxReservations)
  {
    availableSlots := [];
    ghost var done := 0;  // how many candidates of the grid have been looked at
    var hour := FirstHour;
    while hour < EndHour
      invariant FirstHour <= hour <= EndHour && done == 2 * (hour - FirstHour)
      invariant availableSlots == Keep(day, reservations, maxReservations, Grid()[..done])
    {
      var minute := 0;
      while minute < 60
        invariant minute == 0 || minute == StepMinutes || minute == 2 * StepMinutes
        invariant done == 2 * (hour - FirstHour) + minute / StepMinutes
        invariant availableSlots == Keep(day, reservations, maxReservations, Grid()[..done])
      {
        var slot := Slot(hour, minute);
        GridAt(hour, minute);
        KeepStep(day, reservations, maxReservations, done);
        var conflictingReservations := ConflictCount(SlotInstant(day, slot), reservations);
        if conflictingReservations < maxReservations {
          availableSlots := availableSlots + [slot];
        }
        minute := minute + StepMinutes;
        done := done + 1;
      }
      hour := hour + 1;
    }
    assert Grid()[..done] == Grid();
  }

  /** `GET /availability`: 400 without a date, 500 when the
      `max_reservations` setting cannot be read or the reservations query
      fails, the open slots otherwise. `setting` is the parsed setting
      row; `reservations` the store's answer for the date. */
  method GetAvailability(date: Json, day: int, setting: Lookup<int>, reservations: Outcome<seq<int>>)
    returns (res: Response<seq<Slot>>)
    ensures !Truthy(date) ==> res == Failure(400, "Date query parameter is required.")
    ensures Truthy(date) && !setting.Row? ==> res == Failure(500, "Could not retrieve restaurant settings.")
    ensures Truthy(date) && setting.Row? && reservations.Failed? ==> res == Failure(500, reservations.message)
    ensures Truthy(date) && setting.Row? && reservations.Done? ==>
      res == Success(200, Available(day, reservations.value, setting.row))
  {
    if !Truthy(date) {
      return Failure(400, "Date query parameter is required.");
    }
    if !setting.Row? {
      return Failure(500, "Could not retrieve restaurant settings.");
    }
    var maxReservations := setting.row;
    if reservations.Failed? {
      return Failure(500, reservations.message);
    }
    var availableSlots := ComputeAvailableSlots(day, reservations.value, maxReservations);
    res := Success(200, availableSlots);
  }
}
