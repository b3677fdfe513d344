/** The manage-booking page: the saved-booking fixture, the lookup form's
    state and its submit handler, and the rules that choose what the page
    shows after a search. */
module ManageBooking {
  import Text

  datatype Option<T> = None | Some(value: T)

  datatype Endpoint = Endpoint(airport: string, city: string, time: string, date: string)

  /** One flight of a saved booking. */
  datatype Leg = Leg(id: string, flightNumber: string, departure: Endpoint, arrival: Endpoint, duration: string)

  datatype Passenger = Passenger(name: string, kind: string)

  /** A previously completed reservation. */
  datatype Booking = Booking(
    id: string,
    status: string,
    flights: seq<Leg>,
    passengers: seq<Passenger>,
    totalPrice: real)

  const Outbound := Leg("FL001", "DF1234",
    Endpoint("JFK", "New York", "08:30", "2023-07-15"),
    Endpoint("LHR", "London", "20:45", "2023-07-15"), "7h 15m")

  const Return := Leg("FL002", "DF5678",
    Endpoint("LHR", "London", "10:15", "2023-07-22"),
    Endpoint("JFK", "New York", "13:30", "2023-07-22"), "8h 15m")

  /** The hard-coded saved bookings: a single record. */
  const Bookings: seq<Booking> :=
    [Booking("BK12345", "confirmed", [Outbound, Return], [Passenger("John Doe", "Adult")], 1298.0)]

  /** The condition the submit handler tests: the reference, upper-cased, is
      "BK12345" and the last name, lower-cased, is "doe". */
  predicate Matches(bookingReference: string, lastName: string) {
    Text.ToUpper(bookingReference) == "BK12345" && Text.ToLower(lastName) == "doe"
  }

  /** The result the handler stores for the given form inputs. */
  function SearchOutcome(bookingReference: string, lastName: string): Option<Booking> {
    if Matches(bookingReference, lastName) then Some(Bookings[0]) else None
  }

  /** A search succeeds exactly for the two expected strings up to letter
      case, with no trimming and no partial match. */
  lemma MatchesIffEqualIgnoringCase(bookingReference: string, lastName: string)
    ensures Matches(bookingReference, lastName)
        <==> Text.EqualIgnoringCase(bookingReference, "BK12345") && Text.EqualIgnoringCase(lastName, "doe")
  {
  }

  /** Case does not matter on either field. */
  lemma MatchIsCaseInsensitive()
    ensures SearchOutcome("bk12345", "DOE") == SearchOutcome("BK12345", "doe") == Some(Bookings[0])
    ensures SearchOutcome("Bk12345", "dOe") == Some(Bookings[0])
  {
  }

  /** The full passenger name, a padded name and another reference all fail. */
  lemma MatchIsExact()
    ensures SearchOutcome("BK12345", "John Doe") == None
    ensures SearchOutcome("BK12345", " doe") == None
    ensures SearchOutcome("BK12345", "doe ") == None
    ensures SearchOutcome("BK99999", "doe") == None
    ensures SearchOutcome(" BK12345", "doe") == None
  {
    MatchesIffEqualIgnoringCase("BK12345", "John Doe");
    MatchesIffEqualIgnoringCase("BK12345", " doe");
    MatchesIffEqualIgnoringCase("BK12345", "doe ");
    MatchesIffEqualIgnoringCase("BK99999", "doe");
    assert Text.UpperChar("BK99999"[2]) != Text.UpperChar("BK12345"[2]);
    MatchesIffEqualIgnoringCase(" BK12345", "doe");
  }

  // ---------------------------------------------------------------------
  // What the page shows

  /** The area under the form: nothing before the first search, then either
      the found booking or the not-found message. */
  datatype Banner = NoBanner | BookingFound(booking: Booking) | NotFoundMessage

  function BannerFor(searchAttempted: bool, searchResult: Option<Booking>): Banner {
    if !searchAttempted then NoBanner
    else match searchResult
      case Some(b) => BookingFound(b)
      case None => NotFoundMessage
  }

  /** The not-found message is shown exactly after a search that found nothing. */
  lemma NotFoundShownIff(searchAttempted: bool, searchResult: Option<Booking>)
    ensures BannerFor(searchAttempted, searchResult) == NotFoundMessage
        <==> searchAttempted && searchResult == None
    ensures BannerFor(searchAttempted, searchResult).BookingFound?
        <==> searchAttempted && searchResult.Some?
  {
  }

  /** The caption of leg `index` of a found booking. */
  function LegLabel(index: nat): string {
    if index == 0 then "Outbound" else "Return"
  }

  /** The captions of a booking's legs, in order. */
  function LegLabels(legs: seq<Leg>): (labels: seq<string>)
    ensures |labels| == |legs|
  {
    seq(|legs|, i requires 0 <= i < |legs| => LegLabel(i))
  }

  /** Only the first leg is called "Outbound"; every later one is "Return". */
  lemma LegLabelsOutboundFirst(legs: seq<Leg>)
    ensures forall i :: 0 <= i < |legs| ==> (LegLabels(legs)[i] == "Outbound" <==> i == 0)
    ensures forall i :: 0 < i < |legs| ==> LegLabels(legs)[i] == "Return"
  {
  }

  lemma FixtureLegLabels()
    ensures LegLabels(Bookings[0].flights) == ["Outbound", "Return"]
  {
  }

  // ---------------------------------------------------------------------
  // The page's component state

  /** The lookup form: the two inputs, the last result and whether a search
      has been submitted. */
  class ManageBookingPage {
    var bookingReference: string
    var lastName: string
    var searchResult: Option<Booking>
    var searchAttempted: bool

    constructor ()
      ensures bookingReference == "" && lastName == ""
      ensures searchResult == None && !searchAttempted
    {
      bookingReference := "";
      lastName := "";
      searchResult := None;
      searchAttempted := false;
    }

    /** What is shown under the form in the current state. */
    function Shown(): Banner
      reads this
    {
      BannerFor(searchAttempted, searchResult)
    }

    /** Typing in the booking-reference field. */
    method SetBookingReference(value: string)
      modifies this`bookingReference
      ensures bookingReference == value
    {
      bookingReference := value;
    }

    /** Typing in the last-name field. */
    method SetLastName(value: string)
      modifies this`lastName
      ensures lastName == value
    {
      lastName := value;
    }

    /** The form's submit handler, which runs only when the browser lets the
        form submit: mark the search as attempted, then store the booking if
        the inputs match and clear the result otherwise. The inputs
        themselves are left as they are. */
    method HandleSearch()
      modifies this`searchAttempted, this`searchResult
      ensures searchAttempted
      ensures searchResult == SearchOutcome(bookingReference, lastName)
      ensures Matches(bookingReference, lastName) ==> Shown() == BookingFound(Bookings[0])
      ensures !Matches(bookingReference, lastName) ==> Shown() == NotFoundMessage
    {
      searchAttempted := true;
      if Text.ToUpper(bookingReference) == "BK12345" && Text.ToLower(lastName) == "doe" {
        searchResult := Some(Bookings[0]);
      } else {
        searchResult := None;
      }
    }

    /** Pressing the submit button. Both inputs are `required`, so while
        either is empty the browser blocks the submission and the handler
        does not run; otherwise the handler runs. */
    method Submit()
      modifies this`searchAttempted, this`searchResult
      ensures bookingReference == "" || lastName == "" ==>
        searchAttempted == old(searchAttempted) && searchResult == old(searchResult)
      ensures bookingReference != "" && lastName != "" ==>
        searchAttempted && searchResult == SearchOutcome(bookingReference, lastName)
    {
      if bookingReference != "" && lastName != "" {
        HandleSearch();
      }
    }
  }

  /** Submitting twice with the same inputs changes nothing the second time. */
  method HandleSearchIdempotent(page: ManageBookingPage)
    modifies page
    ensures page.bookingReference == old(page.bookingReference) && page.lastName == old(page.lastName)
    ensures page.searchAttempted
    ensures page.searchResult == SearchOutcome(page.bookingReference, page.lastName)
  {
    page.HandleSearch();
    var attempted, result := page.searchAttempted, page.searchResult;
    page.HandleSearch();
    assert page.searchAttempted == attempted && page.searchResult == result;
  }

  /** A successful search followed by a search with a mistyped reference
      clears the earlier result and shows the not-found message. */
  method FailedSearchClearsResult(page: ManageBookingPage)
    modifies page
    ensures page.searchResult == None && page.Shown() == NotFoundMessage
  {
    page.SetBookingReference("bk12345");
    page.SetLastName("Doe");
    assert Text.ToUpper("bk12345") == "BK12345" && Text.ToLower("Doe") == "doe";
    page.HandleSearch();
    assert page.Shown() == BookingFound(Bookings[0]);
    page.SetBookingReference("BK12346");
    MatchesIffEqualIgnoringCase("BK12346", "Doe");
    assert Text.UpperChar("BK12346"[6]) != Text.UpperChar("BK12345"[6]);
    page.HandleSearch();
  }
}
