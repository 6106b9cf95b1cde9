/** The host's dashboard (src/pages/AdminDashboard.tsx): the access gate of the mount effect,
    the case-insensitive booking search, the count cards, the status colours and the logout. */
module AdminDashboard {
  import opened Wrappers
  import Text
  import LocalStorage
  import JwtUtils

  datatype BookingStatus = Confirmed | Cancelled | Pending

  datatype Booking = Booking(
    id: string,
    guestName: string,
    roomType: string,
    checkIn: string,
    checkOut: string,
    status: BookingStatus)

  datatype RoomStatus = Available | Occupied | Blocked

  /** A room; the field the source calls `type` is `kind` here. */
  datatype Room = Room(id: string, name: string, kind: string, status: RoomStatus)

  /** The string a booking status is in the source's union type. */
  function BookingStatusName(s: BookingStatus): string {
    match s
    case Confirmed => "Confirmed"
    case Cancelled => "Cancelled"
    case Pending => "Pending"
  }

  function RoomStatusName(s: RoomStatus): string {
    match s
    case Available => "Available"
    case Occupied => "Occupied"
    case Blocked => "Blocked"
  }

  // ---------------------------------------------------------------------------------------
  // Status colours
  // ---------------------------------------------------------------------------------------

  const KnownStatuses: set<string> := {"Confirmed", "Cancelled", "Pending", "Available", "Occupied", "Blocked"}

  const Green := "#4caf50"
  const Red := "#f44336"
  const Orange := "#ff9800"
  const Blue := "#2196f3"
  const DefaultColor := "#666"

  /** `getStatusColor`: a colour for each of the six statuses the page shows, and a grey
      default for any other string. */
  function StatusColor(status: string): (r: string)
    ensures r == DefaultColor <==> status !in KnownStatuses
    ensures r == Green <==> status == "Confirmed" || status == "Available"
    ensures r == Red <==> status == "Cancelled" || status == "Blocked"
    ensures r == Orange <==> status == "Pending"
    ensures r == Blue <==> status == "Occupied"
  {
    if status == "Confirmed" then Green
    else if status == "Cancelled" then Red
    else if status == "Pending" then Orange
    else if status == "Available" then Green
    else if status == "Occupied" then Blue
    else if status == "Blocked" then Red
    else DefaultColor
  }

  /** Every status a booking or a room can have gets a colour of its own kind: the three
      booking statuses are told apart, and so are the three room statuses. */
  lemma StatusColorsDistinguish(a: BookingStatus, b: BookingStatus, x: RoomStatus, y: RoomStatus)
    ensures StatusColor(BookingStatusName(a)) != DefaultColor
    ensures StatusColor(RoomStatusName(x)) != DefaultColor
    ensures StatusColor(BookingStatusName(a)) == StatusColor(BookingStatusName(b)) <==> a == b
    ensures StatusColor(RoomStatusName(x)) == StatusColor(RoomStatusName(y)) <==> x == y
  {
  }

  // ---------------------------------------------------------------------------------------
  // The booking search
  // ---------------------------------------------------------------------------------------

  /** A booking matches the search term when its guest name or its room type contains the
      term, both sides lower-cased. */
  predicate MatchesSearch(b: Booking, term: string) {
    var t := Text.ToLower(term);
    Text.Contains(Text.ToLower(b.guestName), t) || Text.Contains(Text.ToLower(b.roomType), t)
  }

  /** `filteredBookings`: the bookings that match, in their order. */
  function FilteredBookings(bookings: seq<Booking>, term: string): (r: seq<Booking>)
    ensures |r| <= |bookings|
    ensures forall b :: b in r ==> b in bookings && MatchesSearch(b, term)
  {
    if |bookings| == 0 then []
    else
      var rest := FilteredBookings(bookings[1..], term);
      if MatchesSearch(bookings[0], term) then [bookings[0]] + rest else rest
  }

  /** Every matching booking is kept. */
  lemma {:induction false} FilterKeepsMatches(bookings: seq<Booking>, term: string, b: Booking)
    requires b in bookings && MatchesSearch(b, term)
    ensures b in FilteredBookings(bookings, term)
    decreases |bookings|
  {
    if b != bookings[0] {
      FilterKeepsMatches(bookings[1..], term, b);
    }
  }

  /** A booking is shown exactly when it is in the list and matches the term. */
  lemma FilterMembership(bookings: seq<Booking>, term: string)
    ensures forall b :: b in FilteredBookings(bookings, term) <==> b in bookings && MatchesSearch(b, term)
  {
    forall b | b in bookings && MatchesSearch(b, term)
      ensures b in FilteredBookings(bookings, term)
    {
      FilterKeepsMatches(bookings, term, b);
    }
  }

  /** The filter works booking by booking, so it keeps the order of the list: filtering a
      concatenation concatenates the filtered parts. */
  lemma {:induction false} FilterDistributes(a: seq<Booking>, c: seq<Booking>, term: string)
    ensures FilteredBookings(a + c, term) == FilteredBookings(a, term) + FilteredBookings(c, term)
    decreases |a|
  {
    if |a| > 0 {
      assert (a + c)[0] == a[0];
      assert (a + c)[1..] == a[1..] + c;
      FilterDistributes(a[1..], c, term);
      if MatchesSearch(a[0], term) {
        assert [a[0]] + (FilteredBookings(a[1..], term) + FilteredBookings(c, term)) ==
               ([a[0]] + FilteredBookings(a[1..], term)) + FilteredBookings(c, term);
      }
    } else {
      assert a + c == c;
    }
  }

  /** A list whose every booking matches is kept whole. */
  lemma {:induction false} FilterKeepsAllMatching(bookings: seq<Booking>, term: string)
    requires forall i :: 0 <= i < |bookings| ==> MatchesSearch(bookings[i], term)
    ensures FilteredBookings(bookings, term) == bookings
    decreases |bookings|
  {
    if |bookings| > 0 {
      FilterKeepsAllMatching(bookings[1..], term);
    }
  }

  /** An empty search box shows every booking. */
  lemma EmptyTermKeepsAll(bookings: seq<Booking>)
    ensures FilteredBookings(bookings, "") == bookings
  {
    forall i | 0 <= i < |bookings| ensures MatchesSearch(bookings[i], "") {
      Text.ContainsEmpty(Text.ToLower(bookings[i].guestName));
    }
    FilterKeepsAllMatching(bookings, "");
  }

  /** Searching the result again with the same term changes nothing. */
  lemma FilterIdempotent(bookings: seq<Booking>, term: string)
    ensures FilteredBookings(FilteredBookings(bookings, term), term) == FilteredBookings(bookings, term)
  {
    var r := FilteredBookings(bookings, term);
    assert forall i :: 0 <= i < |r| ==> r[i] in r;
    FilterKeepsAllMatching(r, term);
  }

  /** The case of ASCII letters in the search term does not matter. */
  lemma {:induction false} FilterIgnoresCase(bookings: seq<Booking>, term: string)
    ensures FilteredBookings(bookings, Text.ToUpper(term)) == FilteredBookings(bookings, term)
    decreases |bookings|
  {
    Text.ToLowerOfToUpper(term);
    if |bookings| > 0 {
      FilterIgnoresCase(bookings[1..], term);
    }
  }

  /** Only the guest name and the room type are searched: the id, the dates and the status
      never decide whether a booking is shown. */
  lemma SearchIgnoresOtherFields(b: Booking, c: Booking, term: string)
    requires b.guestName == c.guestName && b.roomType == c.roomType
    ensures MatchesSearch(b, term) <==> MatchesSearch(c, term)
  {
  }

  // ---------------------------------------------------------------------------------------
  // The count cards
  // ---------------------------------------------------------------------------------------

  /** `bookings.filter(b => b.status === s).length`. */
  function CountStatus(bookings: seq<Booking>, s: BookingStatus): (n: nat)
    ensures n <= |bookings|
    ensures n > 0 <==> exists i :: 0 <= i < |bookings| && bookings[i].status == s
  {
    if |bookings| == 0 then 0
    else
      var n := CountStatus(bookings[1..], s);
      assert n > 0 ==> exists i :: 0 <= i < |bookings| && bookings[i].status == s by {
        if n > 0 {
          var i :| 0 <= i < |bookings[1..]| && bookings[1..][i].status == s;
          assert bookings[i + 1].status == s;
        }
      }
      assert (exists i :: 0 <= i < |bookings| && bookings[i].status == s) && bookings[0].status != s ==> n > 0 by {
        if (exists i :: 0 <= i < |bookings| && bookings[i].status == s) && bookings[0].status != s {
          var i :| 0 <= i < |bookings| && bookings[i].status == s;
          assert bookings[1..][i - 1].status == s;
        }
      }
      (if bookings[0].status == s then 1 else 0) + n
  }

  /** `rooms.filter(r => r.status === 'Available').length`. */
  function CountAvailable(rooms: seq<Room>): (n: nat)
    ensures n <= |rooms|
    ensures n > 0 <==> exists i :: 0 <= i < |rooms| && rooms[i].status == Available
  {
    if |rooms| == 0 then 0
    else
      var n := CountAvailable(rooms[1..]);
      assert n > 0 ==> exists i :: 0 <= i < |rooms| && rooms[i].status == Available by {
        if n > 0 {
          var i :| 0 <= i < |rooms[1..]| && rooms[1..][i].status == Available;
          assert rooms[i + 1].status == Available;
        }
      }
      assert (exists i :: 0 <= i < |rooms| && rooms[i].status == Available) && rooms[0].status != Available ==> n > 0 by {
        if (exists i :: 0 <= i < |rooms| && rooms[i].status == Available) && rooms[0].status != Available {
          var i :| 0 <= i < |rooms| && rooms[i].status == Available;
          assert rooms[1..][i - 1].status == Available;
        }
      }
      (if rooms[0].status == Available then 1 else 0) + n
  }

  /** Counting the available rooms of a concatenation counts each part. */
  lemma {:induction false} CountAvailableAppend(a: seq<Room>, c: seq<Room>)
    ensures CountAvailable(a + c) == CountAvailable(a) + CountAvailable(c)
    decreases |a|
  {
    if |a| > 0 {
      assert (a + c)[0] == a[0];
      assert (a + c)[1..] == a[1..] + c;
      CountAvailableAppend(a[1..], c);
      assert CountAvailable(a + c) == (if a[0].status == Available then 1 else 0) + CountAvailable(a[1..] + c);
    } else {
      assert a + c == c;
    }
  }

  /** Every booking is confirmed, cancelled or pending, so the three counts add up to the
      number of bookings. */
  lemma {:induction false} StatusCountsPartition(bookings: seq<Booking>)
    ensures CountStatus(bookings, Confirmed) + CountStatus(bookings, Cancelled) +
            CountStatus(bookings, Pending) == |bookings|
    decreases |bookings|
  {
    if |bookings| > 0 {
      StatusCountsPartition(bookings[1..]);
    }
  }

  /** Counting a concatenation counts each part. */
  lemma {:induction false} CountStatusAppend(a: seq<Booking>, c: seq<Booking>, s: BookingStatus)
    ensures CountStatus(a + c, s) == CountStatus(a, s) + CountStatus(c, s)
    decreases |a|
  {
    if |a| > 0 {
      assert (a + c)[0] == a[0];
      assert (a + c)[1..] == a[1..] + c;
      CountStatusAppend(a[1..], c, s);
      assert CountStatus(a + c, s) == (if a[0].status == s then 1 else 0) + CountStatus(a[1..] + c, s);
    } else {
      assert a + c == c;
    }
  }

  /** The four cards: Total Bookings, Confirmed, Cancelled and Available Rooms. */
  datatype Stats = Stats(totalBookings: nat, confirmed: nat, cancelled: nat, availableRooms: nat)

  function DashboardStats(bookings: seq<Booking>, rooms: seq<Room>): (r: Stats)
    ensures r.totalBookings == |bookings|
    ensures r.confirmed == CountStatus(bookings, Confirmed) && r.cancelled == CountStatus(bookings, Cancelled)
    ensures r.availableRooms == CountAvailable(rooms)
    ensures r.confirmed + r.cancelled <= r.totalBookings
    ensures r.confirmed + r.cancelled == r.totalBookings <==> CountStatus(bookings, Pending) == 0
    ensures r.availableRooms <= |rooms|
  {
    StatusCountsPartition(bookings);
    Stats(|bookings|, CountStatus(bookings, Confirmed), CountStatus(bookings, Cancelled), CountAvailable(rooms))
  }

  // ---------------------------------------------------------------------------------------
  // Access and logout
  // ---------------------------------------------------------------------------------------

  const TokenKey := "jwt"
  const HomePath := "/"

  /** The test of the mount effect: a stored token, and the host role. The first half is
      implied by the second. */
  function AccessGranted(items: map<string, string>, now: int, decode: JwtUtils.Decoder): (allowed: bool)
    ensures allowed <==> JwtUtils.IsHost(items, TokenKey, now, decode)
    ensures allowed ==>
      TokenKey in items && items[TokenKey] != "" && !JwtUtils.IsTokenExpired(items[TokenKey], now, decode)
  {
    LocalStorage.Truthy(LocalStorage.GetItem(items, TokenKey)) && JwtUtils.IsHost(items, TokenKey, now, decode)
  }

  /** After a logout the gate stays shut, whatever the clock reads. */
  lemma LogoutClosesGate(items: map<string, string>, now: int, decode: JwtUtils.Decoder)
    ensures !AccessGranted(items - {TokenKey}, now, decode)
  {
    JwtUtils.NotHostWithoutLiveToken(items - {TokenKey}, TokenKey, now, decode);
  }

  class AdminDashboardPage {
    var activeTab: string
    var bookings: seq<Booking>
    var rooms: seq<Room>
    var searchTerm: string

    constructor ()
      ensures activeTab == "dashboard" && bookings == [] && rooms == [] && searchTerm == ""
    {
      activeTab, bookings, rooms, searchTerm := "dashboard", [], [], "";
    }

    /** The mount effect, with the store as it is at clock reading `now`: a visitor who is not
        a host is sent to "/" (`redirect`) and nothing is loaded; a host gets the data that
        `loadSampleData` installs, given here as `sampleBookings` and `sampleRooms`. */
    method Mount(store: LocalStorage.Storage, now: int, decode: JwtUtils.Decoder,
                 sampleBookings: seq<Booking>, sampleRooms: seq<Room>) returns (redirect: Option<string>)
      modifies this`bookings, this`rooms
      ensures !AccessGranted(store.items, now, decode) ==>
        redirect == Some(HomePath) && bookings == old(bookings) && rooms == old(rooms)
      ensures AccessGranted(store.items, now, decode) ==>
        redirect == None && bookings == sampleBookings && rooms == sampleRooms
    {
      var token := LocalStorage.GetItem(store.items, TokenKey);
      if !LocalStorage.Truthy(token) || !JwtUtils.IsHost(store.items, TokenKey, now, decode) {
        return Some(HomePath);
      }
      bookings := sampleBookings;
      rooms := sampleRooms;
      redirect := None;
    }

    /** A click on a sidebar item. */
    method SelectTab(id: string)
      modifies this`activeTab
      ensures activeTab == id
    {
      activeTab := id;
    }

    /** The search box's `onChange`. */
    method SetSearchTerm(term: string)
      modifies this`searchTerm
      ensures searchTerm == term
    {
      searchTerm := term;
    }

    /** The rows of the booking table. */
    function ShownBookings(): (r: seq<Booking>)
      reads this
      ensures forall b :: b in r <==> b in bookings && MatchesSearch(b, searchTerm)
    {
      FilterMembership(bookings, searchTerm);
      FilteredBookings(bookings, searchTerm)
    }

    /** `handleLogout`: removes the "jwt" entry, and only it, and goes to "/". */
    method HandleLogout(store: LocalStorage.Storage) returns (redirect: string)
      modifies store
      ensures store.items == old(store.items) - {TokenKey}
      ensures redirect == HomePath
    {
      store.RemoveItem(TokenKey);
      redirect := HomePath;
    }
  }
}
