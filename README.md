# AirDreamFly booking demo: flight-results ordering and booking lookup

This project models the two pieces of real logic in the AirDreamFly demonstration site, a
Next.js airline website whose data are all hard-coded.

- **Flight results** (`app/booking/search/page.tsx`). The page keeps a list of five offers.
  Each render sorts a copy of that list with a comparator chosen by the "Sort by" selector:
  - `"price"` subtracts the prices;
  - `"duration"`, `"departure"` and `"arrival"` compare strings with `localeCompare`;
  - any other value gives 0.

  Each card shows a stops label ("Nonstop", "1 stop", "n stops"). The header shows
  "N flights found".
- **Booking lookup** (`app/manage-booking/page.tsx`). The form holds a booking reference, a
  last name, the last search result and a "search attempted" flag. Both inputs are
  `required`, so the browser submits the form only when neither is empty. The submit
  handler then sets the flag. It stores the single saved booking when the upper-cased reference is `"BK12345"` and the
  lower-cased last name is `"doe"`; otherwise it clears the result. The page then shows the
  booking, with its legs captioned "Outbound" or "Return", or a not-found message.

Files:

- `text.dfy`, module `Text`. Helpers shared by both pages:
  - the string order that stands in for `localeCompare`;
  - ASCII upper- and lower-casing;
  - decimal rendering of a count.
- `flight_search.dfy`, module `FlightSearch`. The results page is pure, so it is modelled with
  datatypes and functions:
  - the `Flight` fixture;
  - the comparator `CompareBy`;
  - `SortFlights`, a stable insertion sort of the list;
  - the labels;
  - the page's `useState` fields as a value, with the events the page reacts to.

  The sort is proved to return a sorted permutation of its input and to be stable. Stable
  means the flights tied under the criterion keep their input order (`Stable`, via
  `TiesOf`). ECMAScript 2019 (section 22.1.3.27 of ECMA-262, 10th edition) requires
  `Array.prototype.sort` to be stable. The model does not follow any engine's algorithm
  (for example V8's TimSort). Instead, it proves that a sorted, stable permutation is unique
  (`SortFlightsIsTheStableSort`). So `SortFlights` returns exactly what any conforming engine
  returns.
- `manage_booking.dfy`, module `ManageBooking`. The saved-booking fixture, the match
  condition, and the page's state as a class whose `HandleSearch` method updates two fields
  in place. It also has the pure view rules (the banner and the leg captions).

What the model follows:

- The lookup handler is commented "Simulate booking search"
  (app/manage-booking/page.tsx:77). It compares the two inputs with two literal strings and
  stores `bookings[0]`, so `Matches` and `HandleSearch` do exactly that.
- The "Sort by" option for durations is labelled "Duration (Shortest first)"
  (app/booking/search/page.tsx:360), but the comparator compares the formatted strings, so
  `CompareBy` does too. This is chronological for the fixture, where every duration is
  "7h mm". A duration of "10h 05m" would sort before "7h 15m". `DurationComparesText` and
  `FixtureByDuration` show what the comparator does with the fixture.
- The arrival option is labelled "Arrival (Earliest first)" (app/booking/search/page.tsx:362),
  but the comparator compares only the clock time, not the date. `ArrivalIgnoresDate` and
  `FixtureByArrival` show the effect on the fixture.

## Model

| member | source | states |
|---|---|---|
| `Text.Compare` | app/booking/search/page.tsx:148 | the string comparison returns -1, 0 or 1. It returns 0 exactly when the two strings are equal |
| `Text.CompareAntisymmetric` | app/booking/search/page.tsx:148 | swapping the two strings negates the comparison |
| `Text.CompareTransitive` | app/booking/search/page.tsx:148-152 | "sorts no later than" is transitive on strings |
| `Text.ClockOrderIsChronological` | app/booking/search/page.tsx:149-150 | on zero-padded "HH:MM" times, string order agrees with minutes since midnight, in both directions |
| `Text.ToUpperEqualsIff` | app/manage-booking/page.tsx:78 | upper-casing a string gives an upper-case target exactly when the two are equal ignoring case |
| `Text.ToLowerEqualsIff` | app/manage-booking/page.tsx:78 | lower-casing a string gives a lower-case target exactly when the two are equal ignoring case |
| `Text.NatToStringRoundTrip` | app/booking/search/page.tsx:409 | a rendered count is a non-empty run of digits that reads back as the count |
| `Text.NatToStringNoLeadingZero` | app/booking/search/page.tsx:409 | the rendering of a positive count does not start with a zero |
| `Text.NatToStringInjective` | app/booking/search/page.tsx:409 | distinct counts render as distinct strings |
| `FlightSearch.CompareByAntisymmetric` | app/booking/search/page.tsx:144-155 | for every criterion, swapping the two flights negates the comparator, so it is consistent |
| `FlightSearch.NoLaterTransitive` | app/booking/search/page.tsx:144-155 | for every criterion, "no later than" is transitive |
| `FlightSearch.TiedTransitive` | app/booking/search/page.tsx:144-155 | flights tied under a criterion form an equivalence class |
| `FlightSearch.InsertPermutes` | app/booking/search/page.tsx:144 | inserting a flight adds exactly that flight to the multiset |
| `FlightSearch.InsertSorted` | app/booking/search/page.tsx:144 | inserting into a sorted list keeps it sorted |
| `FlightSearch.InsertTies` | app/booking/search/page.tsx:144 | an inserted flight goes in front of the flights it ties with and leaves other tie classes unchanged |
| `FlightSearch.SortFlightsSortedPermutation` | app/booking/search/page.tsx:144-155 | for every criterion, `sortedFlights` is sorted under the comparator and is a permutation of `filteredFlights` |
| `FlightSearch.SortFlightsStable` | app/booking/search/page.tsx:144 | for every criterion and every tie class, the sorted list keeps the input order of the flights in that class |
| `FlightSearch.StableSortedUnique` | app/booking/search/page.tsx:144 | two sorted permutations that keep each other's tie order are equal |
| `FlightSearch.SortFlightsIsTheStableSort` | app/booking/search/page.tsx:144-155 | any sorted, stable permutation of the input is exactly `SortFlights` of it |
| `FlightSearch.SortFlightsIdempotent` | app/booking/search/page.tsx:144-155 | sorting an already sorted list changes nothing |
| `FlightSearch.UnrecognisedCriterionKeepsOrder` | app/booking/search/page.tsx:154 | with a `sortBy` other than the four known values, the results are the input in input order |
| `FlightSearch.StrictlyEarlierListedFirst` | app/booking/search/page.tsx:144-155 | in a sorted list, a flight that strictly precedes another under the comparator is listed first |
| `FlightSearch.SortByPriceCheapestFirst` | app/booking/search/page.tsx:145-146 | sorting by "price" gives non-decreasing prices |
| `FlightSearch.SortByDepartureChronological` | app/booking/search/page.tsx:149-150 | when all departure times are "HH:MM" times, sorting by "departure" gives non-decreasing minutes since midnight |
| `FlightSearch.FixtureByPrice` | app/booking/search/page.tsx:14-146 | the fixture sorted by price is fl-003, fl-002, fl-004, fl-001, fl-005 |
| `FlightSearch.FixtureByArrival` | app/booking/search/page.tsx:14-152 | the fixture sorted by "arrival" is fl-002 (00:30), fl-003 (04:55), fl-004 (07:45), fl-001 (20:45), fl-005 (22:35) |
| `FlightSearch.FixtureByDuration` | app/booking/search/page.tsx:14-148 | the fixture sorted by "duration" is fl-003 ("7h 10m"), then the four "7h 15m" flights in declared order: fl-001, fl-002, fl-004, fl-005 |
| `FlightSearch.ArrivalIgnoresDate` | app/booking/search/page.tsx:151-152 | sorting the fixture by "arrival" lists fl-002 (00:30, next day) before fl-001 (20:45, same day), although their arrival dates differ |
| `FlightSearch.DurationComparesText` | app/booking/search/page.tsx:147-148 | sorting the fixture by "duration" lists fl-003 ("7h 10m") before every "7h 15m" flight |
| `FlightSearch.StopsLabelCases` | app/booking/search/page.tsx:409 | the stops label is "Nonstop" for 0, "1 stop" for 1, and the count followed by " stops" above 1 |
| `FlightSearch.CountLabelIsNotNonstop` | app/booking/search/page.tsx:409 | a label with one or more stops is never "Nonstop" |
| `FlightSearch.StopsLabelInjective` | app/booking/search/page.tsx:426 | the stops label determines the number of stops |
| `FlightSearch.FoundLabelCountsInput` | app/booking/search/page.tsx:349 | the "N flights found" header counts every input flight |
| `FlightSearch.RunKeepsFilteredFlights` | app/booking/search/page.tsx:138-141 | no event on the page changes `filteredFlights` |
| `FlightSearch.ResultsAlwaysTheWholeFixture` | app/booking/search/page.tsx:139-155 | after any events on the page, `filteredFlights` is still the fixture. The shown list is a sorted permutation of all five offers, and the header reads "5 flights found" |
| `ManageBooking.MatchesIffEqualIgnoringCase` | app/manage-booking/page.tsx:78 | a search matches exactly when the reference is "BK12345" ignoring case and the last name is "doe" ignoring case |
| `ManageBooking.MatchIsCaseInsensitive` | app/manage-booking/page.tsx:78-79 | ("bk12345", "DOE"), ("BK12345", "doe") and ("Bk12345", "dOe") all find the saved booking |
| `ManageBooking.MatchIsExact` | app/manage-booking/page.tsx:78-82 | "John Doe", " doe", "doe ", "BK99999" and " BK12345" each give no result: no trimming and no substring match |
| `ManageBooking.NotFoundShownIff` | app/manage-booking/page.tsx:171-173 | the not-found message shows exactly when a search was attempted and the result is empty. The booking shows exactly when a search was attempted and something was found |
| `ManageBooking.LegLabels` | app/manage-booking/page.tsx:197-200 | a booking has one caption per leg |
| `ManageBooking.LegLabelsOutboundFirst` | app/manage-booking/page.tsx:200 | a leg is captioned "Outbound" exactly when it is the first leg. Every later leg is "Return" |
| `ManageBooking.FixtureLegLabels` | app/manage-booking/page.tsx:21-56 | the saved booking's two legs are captioned "Outbound" then "Return" |
| `ManageBooking.ManageBookingPage.constructor` | app/manage-booking/page.tsx:68-71 | the form starts with empty inputs, no result and no attempted search |
| `ManageBooking.ManageBookingPage.SetBookingReference` | app/manage-booking/page.tsx:130 | typing sets the reference and nothing else |
| `ManageBooking.ManageBookingPage.SetLastName` | app/manage-booking/page.tsx:140 | typing sets the last name and nothing else |
| `ManageBooking.ManageBookingPage.HandleSearch` | app/manage-booking/page.tsx:73-83 | after submitting, `searchAttempted` is true. `searchResult` is the saved booking if the inputs match, otherwise empty. The two inputs are unchanged. The page shows the booking or the not-found message accordingly |
| `ManageBooking.ManageBookingPage.Submit` | app/manage-booking/page.tsx:122-141 | while either required input is empty, submitting changes nothing. Otherwise the handler runs: the search is marked attempted and the result is the saved booking if the inputs match, else empty |
| `ManageBooking.HandleSearchIdempotent` | app/manage-booking/page.tsx:73-83 | submitting twice with the same inputs leaves the same state as submitting once |
| `ManageBooking.FailedSearchClearsResult` | app/manage-booking/page.tsx:80-81 | a failed search after a successful one clears the result and shows the not-found message |

## Left out

- `Text.Compare`: stands in for `localeCompare` with plain code-point lexicographic order, because locale collation is library behaviour outside the code. The two agree on the digit, letter, space and colon strings of the fixture.
- `Text.ToUpperEqualsIff`, `Text.ToLowerEqualsIff`: model `toUpperCase` and `toLowerCase` as ASCII case mapping only. Full Unicode case mapping, which can change a string's length, is library behaviour.
- `FlightSearch.CompareBy`: prices are modelled as integers, not IEEE doubles, because every fixture price is a whole number and their differences are exact.
- The price-range slider and the filter checkboxes store or show values but never filter the results. The model stores the slider value and proves it has no effect; it invents no filtering.
- The seat-selection, meal and payment wizard (app/booking/select-seat/[flightId]/page.tsx) is not part of this model. Its running total and step logic belong to another page.
- The home, about and booking pages, the contact form (a timer-driven flag) and the header, footer and search-form components are presentational and are not modelled.
- `ManageBooking.ManageBookingPage.Submit`: models the browser's `required` validation only as the test for an empty string. The browser's validation message is not modelled.
- Rendering is not modelled: `e.preventDefault()`, React re-rendering, links, date formatting. Only the captions and the banner choice are modelled.
