/** The flight-results page: the fixture of offers, the comparator chosen by
    the "Sort by" selector, the stable sort that orders the results, and the
    labels shown on each result card. */
module FlightSearch {
  import Text

  /** One end of a flight: airport code, city, local "HH:MM" time and date. */
  datatype Endpoint = Endpoint(airport: string, city: string, time: string, date: string)

  /** One bookable flight offer as the results page lists it. */
  datatype Flight = Flight(
    id: string,
    airline: string,
    flightNumber: string,
    departure: Endpoint,
    arrival: Endpoint,
    duration: string,
    stops: nat,
    price: int,
    seatsAvailable: nat,
    aircraft: string,
    amenities: seq<string>,
    cabinClass: string)

  function Offer(id: string, flightNumber: string, depTime: string, arrTime: string, arrDate: string,
                 duration: string, price: int, seats: nat): Flight
  {
    Flight(id, "AirDreamFly", flightNumber,
           Endpoint("JFK", "New York", depTime, "2023-07-15"),
           Endpoint("LHR", "London", arrTime, arrDate),
           duration, 0, price, seats, "Boeing 787-9",
           ["wifi", "power", "entertainment"], "Economy")
  }

  const Fl001 := Offer("fl-001", "DF1234", "08:30", "20:45", "2023-07-15", "7h 15m", 649, 12)
  const Fl002 := Offer("fl-002", "DF2345", "12:15", "00:30", "2023-07-16", "7h 15m", 599, 8)
  const Fl003 := Offer("fl-003", "DF3456", "16:45", "04:55", "2023-07-16", "7h 10m", 579, 5)
  const Fl004 := Offer("fl-004", "DF4567", "19:30", "07:45", "2023-07-16", "7h 15m", 629, 15)
  const Fl005 := Offer("fl-005", "DF5678", "10:20", "22:35", "2023-07-15", "7h 15m", 699, 3)

  /** The hard-coded offers, in the order the page declares them. */
  const Flights: seq<Flight> := [Fl001, Fl002, Fl003, Fl004, Fl005]

  // ---------------------------------------------------------------------
  // The comparator

  /** The comparator handed to `sort`: negative when `a` goes first,
      positive when `b` goes first, zero when the criterion ties them.
      An unrecognised criterion ties every pair. */
  function CompareBy(sortBy: string, a: Flight, b: Flight): int {
    if sortBy == "price" then a.price - b.price
    else if sortBy == "duration" then Text.Compare(a.duration, b.duration)
    else if sortBy == "departure" then Text.Compare(a.departure.time, b.departure.time)
    else if sortBy == "arrival" then Text.Compare(a.arrival.time, b.arrival.time)
    else 0
  }

  /** `a` may be placed before `b`. */
  predicate NoLater(sortBy: string, a: Flight, b: Flight) {
    CompareBy(sortBy, a, b) <= 0
  }

  /** The criterion gives `a` and `b` the same rank. */
  predicate Tied(sortBy: string, a: Flight, b: Flight) {
    CompareBy(sortBy, a, b) == 0
  }

  /** Swapping the operands negates the comparator: it is consistent, as
      `Array.prototype.sort` demands. */
  lemma CompareByAntisymmetric(sortBy: string, a: Flight, b: Flight)
    ensures CompareBy(sortBy, b, a) == -CompareBy(sortBy, a, b)
  {
    Text.CompareAntisymmetric(a.duration, b.duration);
    Text.CompareAntisymmetric(a.departure.time, b.departure.time);
    Text.CompareAntisymmetric(a.arrival.time, b.arrival.time);
  }

  /** `NoLater` is transitive, so with antisymmetry it is a total preorder. */
  lemma NoLaterTransitive(sortBy: string, a: Flight, b: Flight, c: Flight)
    requires NoLater(sortBy, a, b) && NoLater(sortBy, b, c)
    ensures NoLater(sortBy, a, c)
  {
    if sortBy == "duration" {
      Text.CompareTransitive(a.duration, b.duration, c.duration);
    } else if sortBy == "departure" {
      Text.CompareTransitive(a.departure.time, b.departure.time, c.departure.time);
    } else if sortBy == "arrival" {
      Text.CompareTransitive(a.arrival.time, b.arrival.time, c.arrival.time);
    }
  }

  /** Ties form an equivalence: a flight tied with `a` is tied with everything `a` is tied with. */
  lemma TiedTransitive(sortBy: string, a: Flight, b: Flight, c: Flight)
    requires Tied(sortBy, a, b) && Tied(sortBy, b, c)
    ensures Tied(sortBy, a, c) && Tied(sortBy, c, a)
  {
  }

  // ---------------------------------------------------------------------
  // Sortedness and stability

  /** Every flight is no later than every flight after it. */
  ghost predicate Sorted(sortBy: string, s: seq<Flight>) {
    forall i, j :: 0 <= i < j < |s| ==> NoLater(sortBy, s[i], s[j])
  }

  /** The flights of `s` the criterion ties with `y`, in the order of `s`. */
  function TiesOf(sortBy: string, y: Flight, s: seq<Flight>): seq<Flight> {
    if s == [] then []
    else (if Tied(sortBy, y, s[0]) then [s[0]] else []) + TiesOf(sortBy, y, s[1..])
  }

  /** `r` keeps the relative order that `s` gives to flights with equal keys. */
  ghost predicate Stable(sortBy: string, r: seq<Flight>, s: seq<Flight>) {
    forall y :: TiesOf(sortBy, y, r) == TiesOf(sortBy, y, s)
  }

  // ---------------------------------------------------------------------
  // The sort

  /** Places `x` in front of the first flight it is no later than. */
  function Insert(sortBy: string, x: Flight, s: seq<Flight>): seq<Flight> {
    if s == [] then [x]
    else if NoLater(sortBy, x, s[0]) then [x] + s
    else [s[0]] + Insert(sortBy, x, s[1..])
  }

  /** `[...filteredFlights].sort(comparator)`: a stable insertion sort of a copy. */
  function SortFlights(sortBy: string, s: seq<Flight>): seq<Flight> {
    if s == [] then [] else Insert(sortBy, s[0], SortFlights(sortBy, s[1..]))
  }

  lemma {:induction false} InsertPermutes(sortBy: string, x: Flight, s: seq<Flight>)
    ensures multiset(Insert(sortBy, x, s)) == multiset(s) + multiset{x}
  {
    if s != [] && !NoLater(sortBy, x, s[0]) {
      InsertPermutes(sortBy, x, s[1..]);
      assert s == [s[0]] + s[1..];
    }
  }

  lemma {:induction false} InsertSorted(sortBy: string, x: Flight, s: seq<Flight>)
    requires Sorted(sortBy, s)
    ensures Sorted(sortBy, Insert(sortBy, x, s))
  {
    if s == [] {
    } else if NoLater(sortBy, x, s[0]) {
      var r := [x] + s;
      forall i, j | 0 <= i < j < |r| ensures NoLater(sortBy, r[i], r[j]) {
        if i == 0 && j > 1 {
          NoLaterTransitive(sortBy, x, s[0], s[j - 1]);
        }
      }
    } else {
      var t := Insert(sortBy, x, s[1..]);
      InsertSorted(sortBy, x, s[1..]);
      InsertPermutes(sortBy, x, s[1..]);
      CompareByAntisymmetric(sortBy, x, s[0]);
      var r := [s[0]] + t;
      forall i, j | 0 <= i < j < |r| ensures NoLater(sortBy, r[i], r[j]) {
        if i == 0 {
          assert r[j] in multiset(t);
          assert r[j] == x || r[j] in multiset(s[1..]);
          if r[j] != x {
            var k :| 0 <= k < |s[1..]| && s[1..][k] == r[j];
            assert s[k + 1] == r[j];
          }
        }
      }
    }
  }

  /** Inserting `x` puts it in front of the flights it is tied with. */
  lemma {:induction false} InsertTies(sortBy: string, x: Flight, s: seq<Flight>, y: Flight)
    ensures TiesOf(sortBy, y, Insert(sortBy, x, s))
         == (if Tied(sortBy, y, x) then [x] else []) + TiesOf(sortBy, y, s)
  {
    var r := Insert(sortBy, x, s);
    if s == [] {
      assert r[1..] == [];
    } else if NoLater(sortBy, x, s[0]) {
      assert r[0] == x && r[1..] == s;
    } else {
      InsertTies(sortBy, x, s[1..], y);
      assert r[0] == s[0] && r[1..] == Insert(sortBy, x, s[1..]);
      if Tied(sortBy, y, x) && Tied(sortBy, y, s[0]) {
        TiedTransitive(sortBy, x, y, s[0]);
        assert false;
      }
    }
  }

  /** Sorting yields an ordered permutation of the input. */
  lemma {:induction false} SortFlightsSortedPermutation(sortBy: string, s: seq<Flight>)
    ensures Sorted(sortBy, SortFlights(sortBy, s))
    ensures multiset(SortFlights(sortBy, s)) == multiset(s)
  {
    if s != [] {
      SortFlightsSortedPermutation(sortBy, s[1..]);
      InsertSorted(sortBy, s[0], SortFlights(sortBy, s[1..]));
      InsertPermutes(sortBy, s[0], SortFlights(sortBy, s[1..]));
      assert s == [s[0]] + s[1..];
    }
  }

  /** The sort is stable: flights with equal keys keep their input order. */
  lemma {:induction false} SortFlightsStable(sortBy: string, s: seq<Flight>)
    ensures Stable(sortBy, SortFlights(sortBy, s), s)
  {
    if s != [] {
      SortFlightsStable(sortBy, s[1..]);
      forall y ensures TiesOf(sortBy, y, SortFlights(sortBy, s)) == TiesOf(sortBy, y, s) {
        InsertTies(sortBy, s[0], SortFlights(sortBy, s[1..]), y);
      }
    }
  }

  /** Two sorted, mutually stable permutations start with the same flight. */
  lemma SameFirst(sortBy: string, r1: seq<Flight>, r2: seq<Flight>)
    requires r1 != [] && r2 != []
    requires Sorted(sortBy, r1) && Sorted(sortBy, r2)
    requires multiset(r1) == multiset(r2)
    requires Stable(sortBy, r1, r2)
    ensures r1[0] == r2[0]
  {
    var x1, x2 := r1[0], r2[0];
    assert x2 in multiset(r1) && x1 in multiset(r2);
    var j1 :| 0 <= j1 < |r1| && r1[j1] == x2;
    var j2 :| 0 <= j2 < |r2| && r2[j2] == x1;
    CompareByAntisymmetric(sortBy, x1, x2);
    CompareByAntisymmetric(sortBy, x1, x1);
    assert NoLater(sortBy, x1, x2) && NoLater(sortBy, x2, x1);
    assert Tied(sortBy, x1, x1) && Tied(sortBy, x1, x2);
    var t1, t2 := TiesOf(sortBy, x1, r1), TiesOf(sortBy, x1, r2);
    assert t1 == [x1] + TiesOf(sortBy, x1, r1[1..]);
    assert t2 == [x2] + TiesOf(sortBy, x1, r2[1..]);
    assert t1 == t2;
    assert t1[0] == x1 && t2[0] == x2;
  }

  /** Dropping a common first flight keeps the hypotheses of uniqueness. */
  lemma DropFirst(sortBy: string, r1: seq<Flight>, r2: seq<Flight>)
    requires r1 != [] && r2 != [] && r1[0] == r2[0]
    requires Sorted(sortBy, r1) && Sorted(sortBy, r2)
    requires multiset(r1) == multiset(r2)
    requires Stable(sortBy, r1, r2)
    ensures Sorted(sortBy, r1[1..]) && Sorted(sortBy, r2[1..])
    ensures multiset(r1[1..]) == multiset(r2[1..])
    ensures Stable(sortBy, r1[1..], r2[1..])
  {
    var x := r1[0];
    assert r1 == [x] + r1[1..] && r2 == [x] + r2[1..];
    assert multiset(r1[1..]) == multiset(r1) - multiset{x};
    assert multiset(r2[1..]) == multiset(r2) - multiset{x};
    forall y ensures TiesOf(sortBy, y, r1[1..]) == TiesOf(sortBy, y, r2[1..]) {
      var p := if Tied(sortBy, y, x) then [x] else [];
      var t1, t2 := TiesOf(sortBy, y, r1[1..]), TiesOf(sortBy, y, r2[1..]);
      assert p + t1 == TiesOf(sortBy, y, r1) == TiesOf(sortBy, y, r2) == p + t2;
      assert t1 == (p + t1)[|p|..] && t2 == (p + t2)[|p|..];
    }
  }

  /** A sorted, stable permutation of a list is unique: any two agree. */
  lemma {:induction false} StableSortedUnique(sortBy: string, r1: seq<Flight>, r2: seq<Flight>)
    requires Sorted(sortBy, r1) && Sorted(sortBy, r2)
    requires multiset(r1) == multiset(r2)
    requires Stable(sortBy, r1, r2)
    ensures r1 == r2
    decreases |r1|
  {
    assert |r1| == |multiset(r1)| == |multiset(r2)| == |r2|;
    if r1 != [] {
      SameFirst(sortBy, r1, r2);
      DropFirst(sortBy, r1, r2);
      StableSortedUnique(sortBy, r1[1..], r2[1..]);
      assert r1 == [r1[0]] + r1[1..] && r2 == [r2[0]] + r2[1..];
    }
  }

  /** The sort's result is the only sorted, stable permutation of its input,
      so it is what any conforming stable `Array.prototype.sort` returns. */
  lemma SortFlightsIsTheStableSort(sortBy: string, s: seq<Flight>, r: seq<Flight>)
    requires Sorted(sortBy, r) && multiset(r) == multiset(s) && Stable(sortBy, r, s)
    ensures r == SortFlights(sortBy, s)
  {
    SortFlightsSortedPermutation(sortBy, s);
    SortFlightsStable(sortBy, s);
    StableSortedUnique(sortBy, r, SortFlights(sortBy, s));
  }

  /** Stable sorting is idempotent. */
  lemma SortFlightsIdempotent(sortBy: string, s: seq<Flight>)
    ensures SortFlights(sortBy, SortFlights(sortBy, s)) == SortFlights(sortBy, s)
  {
    var r := SortFlights(sortBy, s);
    SortFlightsSortedPermutation(sortBy, s);
    SortFlightsIsTheStableSort(sortBy, r, r);
  }

  /** With a criterion the page does not recognise every pair ties, and the
      results keep the input order exactly. */
  lemma UnrecognisedCriterionKeepsOrder(sortBy: string, s: seq<Flight>)
    requires sortBy != "price" && sortBy != "duration" && sortBy != "departure" && sortBy != "arrival"
    ensures SortFlights(sortBy, s) == s
  {
  }

  // ---------------------------------------------------------------------
  // What each criterion means for the results

  /** A flight that strictly precedes another under the criterion is listed first. */
  lemma StrictlyEarlierListedFirst(sortBy: string, r: seq<Flight>, i: int, j: int)
    requires Sorted(sortBy, r)
    requires 0 <= i < |r| && 0 <= j < |r|
    requires CompareBy(sortBy, r[i], r[j]) < 0
    ensures i < j
  {
    if j < i {
      CompareByAntisymmetric(sortBy, r[j], r[i]);
    }
    assert i != j;
  }

  /** "price": cheapest first. */
  lemma SortByPriceCheapestFirst(s: seq<Flight>)
    ensures var r := SortFlights("price", s);
      forall i, j :: 0 <= i < j < |r| ==> r[i].price <= r[j].price
  {
    SortFlightsSortedPermutation("price", s);
  }

  /** "departure": non-decreasing departure time as a string, which for
      zero-padded "HH:MM" times is chronological. */
  lemma SortByDepartureChronological(s: seq<Flight>)
    requires forall k :: 0 <= k < |s| ==> Text.IsClockTime(s[k].departure.time)
    ensures var r := SortFlights("departure", s);
      forall i, j :: 0 <= i < j < |r| ==>
        Text.IsClockTime(r[i].departure.time) && Text.IsClockTime(r[j].departure.time) &&
        Text.MinutesOfDay(r[i].departure.time) <= Text.MinutesOfDay(r[j].departure.time)
  {
    var r := SortFlights("departure", s);
    SortFlightsSortedPermutation("departure", s);
    forall i | 0 <= i < |r| ensures Text.IsClockTime(r[i].departure.time) {
      assert r[i] in multiset(s);
    }
    forall i, j | 0 <= i < j < |r|
      ensures Text.MinutesOfDay(r[i].departure.time) <= Text.MinutesOfDay(r[j].departure.time)
    {
      assert NoLater("departure", r[i], r[j]);
      Text.ClockOrderIsChronological(r[i].departure.time, r[j].departure.time);
    }
  }

  /** The fixture ordered by price: fl-003, fl-002, fl-004, fl-001, fl-005. */
  lemma FixtureByPrice()
    ensures SortFlights("price", Flights) == [Fl003, Fl002, Fl004, Fl001, Fl005]
  {
    assert Flights[1..] == [Fl002, Fl003, Fl004, Fl005];
    assert Flights[1..][1..] == [Fl003, Fl004, Fl005];
    assert Flights[1..][1..][1..] == [Fl004, Fl005];
    assert Flights[1..][1..][1..][1..] == [Fl005];
    assert SortFlights("price", [Fl005]) == [Fl005];
    assert SortFlights("price", [Fl004, Fl005]) == Insert("price", Fl004, [Fl005]) == [Fl004, Fl005];
    assert SortFlights("price", [Fl003, Fl004, Fl005]) == Insert("price", Fl003, [Fl004, Fl005]) == [Fl003, Fl004, Fl005];
    assert Insert("price", Fl002, [Fl004, Fl005]) == [Fl002, Fl004, Fl005];
    assert SortFlights("price", [Fl002, Fl003, Fl004, Fl005]) == Insert("price", Fl002, [Fl003, Fl004, Fl005])
        == [Fl003, Fl002, Fl004, Fl005];
    assert Insert("price", Fl001, [Fl005]) == [Fl001, Fl005];
    assert Insert("price", Fl001, [Fl004, Fl005]) == [Fl004, Fl001, Fl005];
    assert Insert("price", Fl001, [Fl002, Fl004, Fl005]) == [Fl002, Fl004, Fl001, Fl005];
    assert Insert("price", Fl001, [Fl003, Fl002, Fl004, Fl005]) == [Fl003, Fl002, Fl004, Fl001, Fl005];
  }

  /** "arrival" compares only the clock time and ignores the date, so fl-002,
      landing at 00:30 on the next day, is listed before fl-001, landing at
      20:45 on the day of departure. */
  lemma ArrivalIgnoresDate(i: int, j: int)
    requires var r := SortFlights("arrival", Flights); 0 <= i < |r| && 0 <= j < |r| && r[i] == Fl002 && r[j] == Fl001
    ensures i < j
    ensures Fl002.arrival.date != Fl001.arrival.date
  {
    SortFlightsSortedPermutation("arrival", Flights);
    assert Fl002.arrival.time[0] < Fl001.arrival.time[0];
    StrictlyEarlierListedFirst("arrival", SortFlights("arrival", Flights), i, j);
  }

  /** "duration" compares the formatted strings, so "7h 10m" (fl-003) is
      listed before every "7h 15m" flight. */
  lemma DurationComparesText(i: int, j: int)
    requires var r := SortFlights("duration", Flights);
      0 <= i < |r| && 0 <= j < |r| && r[i] == Fl003 && r[j].duration == "7h 15m"
    ensures i < j
  {
    var r := SortFlights("duration", Flights);
    SortFlightsSortedPermutation("duration", Flights);
    var a, b := Fl003.duration, r[j].duration;
    assert a[0] == b[0] && a[1] == b[1] && a[2] == b[2] && a[3] == b[3] && a[4] < b[4];
    assert Text.Compare(a, b) == Text.Compare(a[1..], b[1..]) == Text.Compare(a[2..], b[2..]);
    assert Text.Compare(a[2..], b[2..]) == Text.Compare(a[3..], b[3..]) == Text.Compare(a[4..], b[4..]);
    StrictlyEarlierListedFirst("duration", r, i, j);
  }

  /** The fixture ordered by arrival time: fl-002, fl-003, fl-004, fl-001,
      fl-005. fl-002 and fl-003 land on the next day but are listed first. */
  lemma FixtureByArrival()
    ensures SortFlights("arrival", Flights) == [Fl002, Fl003, Fl004, Fl001, Fl005]
  {
    var t1, t2, t3, t4, t5 := Fl001.arrival.time, Fl002.arrival.time, Fl003.arrival.time,
                              Fl004.arrival.time, Fl005.arrival.time;
    Text.ClockOrderIsChronological(t4, t5);
    Text.ClockOrderIsChronological(t3, t4);
    Text.ClockOrderIsChronological(t2, t3);
    Text.ClockOrderIsChronological(t1, t2);
    Text.ClockOrderIsChronological(t1, t3);
    Text.ClockOrderIsChronological(t1, t4);
    Text.ClockOrderIsChronological(t1, t5);
    assert Flights[1..] == [Fl002, Fl003, Fl004, Fl005];
    assert Flights[1..][1..] == [Fl003, Fl004, Fl005];
    assert Flights[1..][1..][1..] == [Fl004, Fl005];
    assert Flights[1..][1..][1..][1..] == [Fl005];
    assert SortFlights("arrival", [Fl005]) == [Fl005];
    assert SortFlights("arrival", [Fl004, Fl005]) == [Fl004, Fl005];
    assert SortFlights("arrival", [Fl003, Fl004, Fl005]) == [Fl003, Fl004, Fl005];
    assert SortFlights("arrival", [Fl002, Fl003, Fl004, Fl005]) == [Fl002, Fl003, Fl004, Fl005];
    assert Insert("arrival", Fl001, [Fl005]) == [Fl001, Fl005];
    assert Insert("arrival", Fl001, [Fl004, Fl005]) == [Fl004, Fl001, Fl005];
    assert Insert("arrival", Fl001, [Fl003, Fl004, Fl005]) == [Fl003, Fl004, Fl001, Fl005];
    assert Insert("arrival", Fl001, [Fl002, Fl003, Fl004, Fl005]) == [Fl002, Fl003, Fl004, Fl001, Fl005];
  }

  /** "7h 10m" sorts before "7h 15m" as text. */
  lemma DurationTextOrder()
    ensures Text.Compare("7h 10m", "7h 15m") < 0 && Text.Compare("7h 15m", "7h 10m") > 0
  {
    var a, b := "7h 10m", "7h 15m";
    assert Text.Compare(a, b) == Text.Compare(a[1..], b[1..]) == Text.Compare(a[2..], b[2..]);
    assert Text.Compare(a[2..], b[2..]) == Text.Compare(a[3..], b[3..]) == Text.Compare(a[4..], b[4..]);
    Text.CompareAntisymmetric(a, b);
  }

  /** The comparisons between fixture durations the sort makes. */
  lemma DurationComparisons()
    ensures Tied("duration", Fl004, Fl005) && Tied("duration", Fl002, Fl004) && Tied("duration", Fl001, Fl002)
    ensures NoLater("duration", Fl003, Fl004) && !NoLater("duration", Fl002, Fl003)
    ensures !NoLater("duration", Fl001, Fl003)
  {
    DurationTextOrder();
  }

  lemma DurationSortOfLastTwo()
    ensures SortFlights("duration", [Fl004, Fl005]) == [Fl004, Fl005]
  {
    DurationComparisons();
    var s := [Fl004, Fl005];
    assert s[1..] == [Fl005];
    assert SortFlights("duration", [Fl005]) == [Fl005];
    assert Insert("duration", Fl004, [Fl005]) == [Fl004, Fl005];
  }

  lemma DurationSortOfLastThree()
    ensures SortFlights("duration", [Fl003, Fl004, Fl005]) == [Fl003, Fl004, Fl005]
  {
    DurationComparisons();
    DurationSortOfLastTwo();
    var s := [Fl003, Fl004, Fl005];
    assert s[1..] == [Fl004, Fl005];
    assert Insert("duration", Fl003, [Fl004, Fl005]) == [Fl003, Fl004, Fl005];
  }

  lemma DurationInsertFl002()
    ensures Insert("duration", Fl002, [Fl003, Fl004, Fl005]) == [Fl003, Fl002, Fl004, Fl005]
  {
    DurationComparisons();
    var s := [Fl003, Fl004, Fl005];
    assert s[1..] == [Fl004, Fl005];
    assert Insert("duration", Fl002, [Fl004, Fl005]) == [Fl002, Fl004, Fl005];
  }

  lemma DurationSortOfLastFour()
    ensures SortFlights("duration", [Fl002, Fl003, Fl004, Fl005]) == [Fl003, Fl002, Fl004, Fl005]
  {
    DurationSortOfLastThree();
    DurationInsertFl002();
    var s := [Fl002, Fl003, Fl004, Fl005];
    assert s[1..] == [Fl003, Fl004, Fl005];
  }

  lemma DurationInsertFl001()
    ensures Insert("duration", Fl001, [Fl003, Fl002, Fl004, Fl005]) == [Fl003, Fl001, Fl002, Fl004, Fl005]
  {
    DurationComparisons();
    var s := [Fl003, Fl002, Fl004, Fl005];
    assert s[1..] == [Fl002, Fl004, Fl005];
    assert Insert("duration", Fl001, [Fl002, Fl004, Fl005]) == [Fl001, Fl002, Fl004, Fl005];
  }

  /** The fixture ordered by duration: fl-003 ("7h 10m") first, then the four
      "7h 15m" flights, which tie and so keep their declared order. */
  lemma FixtureByDuration()
    ensures SortFlights("duration", Flights) == [Fl003, Fl001, Fl002, Fl004, Fl005]
  {
    DurationSortOfLastFour();
    DurationInsertFl001();
    assert Flights[1..] == [Fl002, Fl003, Fl004, Fl005];
  }

  // ---------------------------------------------------------------------
  // Labels on the page

  /** "Nonstop" for no stops, otherwise the count and "stop", plural above one. */
  function StopsLabel(stops: nat): string {
    if stops == 0 then "Nonstop"
    else Text.NatToString(stops) + " stop" + (if stops > 1 then "s" else "")
  }

  lemma StopsLabelCases(stops: nat)
    ensures stops == 0 ==> StopsLabel(stops) == "Nonstop"
    ensures stops == 1 ==> StopsLabel(stops) == "1 stop"
    ensures stops > 1 ==> StopsLabel(stops) == Text.NatToString(stops) + " stops"
  {
  }

  /** A count-bearing label starts with a digit, never with "N". */
  lemma CountLabelIsNotNonstop(k: nat)
    requires k != 0
    ensures StopsLabel(k) != "Nonstop"
  {
    Text.NatToStringRoundTrip(k);
    var d := Text.NatToString(k);
    assert StopsLabel(k)[0] == d[0];
    assert Text.IsDigit(d[0]);
  }

  /** The stops label determines the number of stops. */
  lemma StopsLabelInjective(m: nat, n: nat)
    requires StopsLabel(m) == StopsLabel(n)
    ensures m == n
  {
    if m != n {
      if m == 0 || n == 0 {
        CountLabelIsNotNonstop(m + n);
      } else {
        Text.NatToStringRoundTrip(m);
        Text.NatToStringRoundTrip(n);
        var tm := " stop" + (if m > 1 then "s" else "");
        var tn := " stop" + (if n > 1 then "s" else "");
        assert StopsLabel(m) == Text.NatToString(m) + tm;
        assert StopsLabel(n) == Text.NatToString(n) + tn;
        Text.DigitPrefixUnique(Text.NatToString(m), tm, Text.NatToString(n), tn);
        Text.NatToStringInjective(m, n);
      }
    }
  }

  /** The results header, "<count> flights found". */
  function FoundLabel(results: seq<Flight>): string {
    Text.NatToString(|results|) + " flights found"
  }

  /** The header counts every input flight: sorting drops none. */
  lemma FoundLabelCountsInput(sortBy: string, s: seq<Flight>)
    ensures FoundLabel(SortFlights(sortBy, s)) == Text.NatToString(|s|) + " flights found"
  {
    SortFlightsSortedPermutation(sortBy, s);
    assert |SortFlights(sortBy, s)| == |multiset(SortFlights(sortBy, s))| == |multiset(s)| == |s|;
  }

  // ---------------------------------------------------------------------
  // The page's state

  /** The page's `useState` fields. */
  datatype ResultsPage = ResultsPage(
    sortBy: string,
    filteredFlights: seq<Flight>,
    priceRange: seq<int>,
    showFilters: bool)

  const InitialPage := ResultsPage("price", Flights, [500, 800], false)

  /** What the user can do on the page: pick a sort order, move the price
      slider, show or hide the mobile filter panel. */
  datatype PageEvent = SortSelected(value: string) | PriceRangeChanged(range: seq<int>) | FiltersToggled

  function Step(p: ResultsPage, e: PageEvent): ResultsPage {
    match e
    case SortSelected(v) => p.(sortBy := v)
    case PriceRangeChanged(v) => p.(priceRange := v)
    case FiltersToggled => p.(showFilters := !p.showFilters)
  }

  function Run(p: ResultsPage, events: seq<PageEvent>): ResultsPage
    decreases |events|
  {
    if events == [] then p else Run(Step(p, events[0]), events[1..])
  }

  /** `sortedFlights`, derived afresh from the state at every render. */
  function SortedFlights(p: ResultsPage): seq<Flight> {
    SortFlights(p.sortBy, p.filteredFlights)
  }

  lemma {:induction false} RunKeepsFilteredFlights(p: ResultsPage, events: seq<PageEvent>)
    ensures Run(p, events).filteredFlights == p.filteredFlights
    decreases |events|
  {
    if events != [] {
      RunKeepsFilteredFlights(Step(p, events[0]), events[1..]);
    }
  }

  lemma FiveFlightsFound(r: seq<Flight>)
    requires |r| == 5
    ensures FoundLabel(r) == "5 flights found"
  {
  }

  /** Whatever the user does, the unsorted list stays the fixture (sorting
      works on a copy, nothing filters), and the page shows a sorted
      permutation of all five offers: the price slider removes none. */
  lemma ResultsAlwaysTheWholeFixture(events: seq<PageEvent>)
    ensures var p := Run(InitialPage, events);
      && p.filteredFlights == Flights
      && multiset(SortedFlights(p)) == multiset(Flights)
      && Sorted(p.sortBy, SortedFlights(p))
      && FoundLabel(SortedFlights(p)) == "5 flights found"
  {
    var p := Run(InitialPage, events);
    RunKeepsFilteredFlights(InitialPage, events);
    SortFlightsSortedPermutation(p.sortBy, p.filteredFlights);
    var r := SortedFlights(p);
    assert |r| == |multiset(r)| == |multiset(Flights)| == 5;
    FiveFlightsFound(r);
  }
}
