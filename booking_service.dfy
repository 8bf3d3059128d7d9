/** The booking lifecycle of BookingServiceImpl: creating a booking (always
    WAITING), the owner's one-time decision to approve or reject it, and the
    read-only views a booker or an item owner may ask for. The item and user
    repositories are read-only maps/tables here; the booking table is the
    state this service writes. */
module BookingService {
  import opened Common
  import opened Entities
  import opened BookingQueries

  /** The booking views a caller may name. */
  datatype State = ALL | CURRENT | PAST | FUTURE | WAITING | REJECTED

  function StateName(st: State): string
  {
    match st
    case ALL => "ALL"
    case CURRENT => "CURRENT"
    case PAST => "PAST"
    case FUTURE => "FUTURE"
    case WAITING => "WAITING"
    case REJECTED => "REJECTED"
  }

  /** State.valueOf(stateString.toUpperCase()): the state whose name is the
      upper-cased string, or IllegalArgumentException. */
  function ParseState(s: string): (r: Result<State>)
    ensures r.Ok? ==> StateName(r.value) == Upper(s)
    ensures r.Err? ==> r.error == IllegalArgument && forall st: State :: StateName(st) != Upper(s)
  {
    var u := Upper(s);
    if u == "ALL" then Ok(State.ALL)
    else if u == "CURRENT" then Ok(State.CURRENT)
    else if u == "PAST" then Ok(State.PAST)
    else if u == "FUTURE" then Ok(State.FUTURE)
    else if u == "WAITING" then Ok(State.WAITING)
    else if u == "REJECTED" then Ok(State.REJECTED)
    else Err(IllegalArgument)
  }

  /** The state string is matched without regard to case. */
  lemma ParseStateIgnoresCase(s: string)
    ensures ParseState(Lower(s)) == ParseState(s)
  {
    UpperOfLower(s);
  }

  /** The view a state selects, as a predicate on one booking. */
  predicate InView(b: Booking, st: State, now: int)
  {
    match st
    case ALL => true
    case CURRENT => IsCurrent(b, now)
    case PAST => IsPast(b, now)
    case FUTURE => IsFuture(b, now)
    case WAITING => b.status == Status.WAITING
    case REJECTED => b.status == Status.REJECTED
  }

  /** findByUserId: the caller's own bookings in the requested view. The user
      is looked up before the state string is parsed and before any query. */
  function FindByUserId(users: map<int, User>, table: seq<Booking>, userId: int, stateString: string, now: int)
    : (r: Result<seq<Booking>>)
    ensures userId !in users ==> r == Err(NotFound)
    ensures userId in users && ParseState(stateString).Err? ==> r == Err(IllegalArgument)
    ensures r.Ok? <==> userId in users && ParseState(stateString).Ok?
    ensures r.Ok? ==> forall b :: b in r.value <==>
      b in table && b.booker.id == users[userId].id && InView(b, ParseState(stateString).value, now)
  {
    if userId !in users then Err(NotFound)
    else
      var user := users[userId];
      match ParseState(stateString)
      case Err(e) => Err(e)
      case Ok(state) =>
        Ok(match state
           case ALL => FindByBooker(table, user)
           case CURRENT => FindByBookerCurrent(table, user, now)
           case PAST => FindByBookerPast(table, user, now)
           case FUTURE => FindByBookerFuture(table, user, now)
           case WAITING => FindByBookerAndStatus(table, user, Status.WAITING)
           case REJECTED => FindByBookerAndStatus(table, user, Status.REJECTED))
  }

  /** findOwnerBookings: the bookings of the caller's items in the requested view. */
  function FindOwnerBookings(users: map<int, User>, table: seq<Booking>, userId: int, stateString: string, now: int)
    : (r: Result<seq<Booking>>)
    ensures userId !in users ==> r == Err(NotFound)
    ensures userId in users && ParseState(stateString).Err? ==> r == Err(IllegalArgument)
    ensures r.Ok? <==> userId in users && ParseState(stateString).Ok?
    ensures r.Ok? ==> forall b :: b in r.value <==>
      b in table && b.item.owner.id == users[userId].id && InView(b, ParseState(stateString).value, now)
  {
    if userId !in users then Err(NotFound)
    else
      var user := users[userId];
      match ParseState(stateString)
      case Err(e) => Err(e)
      case Ok(state) =>
        Ok(match state
           case ALL => FindByItemOwner(table, user)
           case CURRENT => FindByItemOwnerCurrent(table, user, now)
           case PAST => FindByItemOwnerPast(table, user, now)
           case FUTURE => FindByItemOwnerFuture(table, user, now)
           case WAITING => FindByItemOwnerAndStatus(table, user, Status.WAITING)
           case REJECTED => FindByItemOwnerAndStatus(table, user, Status.REJECTED))
  }

  /** Both listings give the same answer whatever case the state is written in. */
  lemma {:induction false} ListingsIgnoreCase(users: map<int, User>, table: seq<Booking>, userId: int, s: string, now: int)
    ensures FindByUserId(users, table, userId, Lower(s), now) == FindByUserId(users, table, userId, s, now)
    ensures FindOwnerBookings(users, table, userId, Lower(s), now) == FindOwnerBookings(users, table, userId, s, now)
  {
    ParseStateIgnoresCase(s);
  }

  /** findAllBookingsByUserId: one booking, shown only to its booker or to the
      owner of its item; anyone else is told it does not exist. */
  function FindAllBookingsByUserId(table: seq<Booking>, users: map<int, User>, bookingId: int, userId: int)
    : (r: Result<Booking>)
    ensures r.Err? ==> r.error == NotFound
    ensures r.Ok? <==>
      && Row(table, bookingId).Some?
      && userId in users
      && (Row(table, bookingId).value.booker.id == users[userId].id
          || Row(table, bookingId).value.item.owner.id == users[userId].id)
    ensures r.Ok? ==> Row(table, bookingId) == Some(r.value)
  {
    match Row(table, bookingId)
    case None => Err(NotFound)
    case Some(booking) =>
      if userId !in users then Err(NotFound)
      else
        var user := users[userId];
        if booking.booker.id != user.id && booking.item.owner.id != user.id then Err(NotFound)
        else Ok(booking)
  }

  /** The checks of `save` in their order, and the booking it would store under
      `id`: the item must exist and not belong to the booker, be available, the
      window must not end in the past nor be empty or reversed, and only then is
      the booker looked up. */
  function NewBooking(items: seq<Item>, users: map<int, User>, itemId: int, start: int, end: int, bookerId: int,
                      now: int, id: int): (r: Result<Booking>)
    ensures Row(items, itemId).None? ==> r == Err(NotFound)
    ensures r.Ok? <==>
      && Row(items, itemId).Some?
      && Row(items, itemId).value.owner.id != bookerId
      && Row(items, itemId).value.available
      && start < end && now <= end
      && bookerId in users
    ensures (Row(items, itemId).Some? && Row(items, itemId).value.owner.id != bookerId
             && Row(items, itemId).value.available && start < end && now <= end && bookerId !in users) ==>
      r == Err(NotFound)
    ensures r.Ok? ==> r.value == Booking(id, start, end, Row(items, itemId).value, users[bookerId], Status.WAITING)
  {
    match Row(items, itemId)
    case None => Err(NotFound)
    case Some(item) =>
      if item.owner.id == bookerId then Err(NotFound)
      else if !item.available then Err(Validation)
      else if end < now || start == end then Err(Validation)
      else if end < start then Err(Validation)
      else if bookerId !in users then Err(NotFound)
      else Ok(Booking(id, start, end, item, users[bookerId], Status.WAITING))
  }

  /** Which exception a refused booking ends with. */
  lemma NewBookingErrors(items: seq<Item>, users: map<int, User>, itemId: int, start: int, end: int, bookerId: int,
                         now: int, id: int)
    requires Row(items, itemId).Some?
    ensures Row(items, itemId).value.owner.id == bookerId ==>
      NewBooking(items, users, itemId, start, end, bookerId, now, id) == Err(NotFound)
    ensures Row(items, itemId).value.owner.id != bookerId && !Row(items, itemId).value.available ==>
      NewBooking(items, users, itemId, start, end, bookerId, now, id) == Err(Validation)
    ensures Row(items, itemId).value.owner.id != bookerId && (end < now || end <= start) ==>
      NewBooking(items, users, itemId, start, end, bookerId, now, id) == Err(Validation)
  {
  }

  /** The booker is looked up only after the item and time checks pass: while
      the window is invalid the outcome does not depend on the user table. */
  lemma BookerLookedUpLast(items: seq<Item>, users1: map<int, User>, users2: map<int, User>, itemId: int,
                           start: int, end: int, bookerId: int, now: int, id: int)
    requires end < now || end <= start
    ensures NewBooking(items, users1, itemId, start, end, bookerId, now, id).Err?
    ensures NewBooking(items, users1, itemId, start, end, bookerId, now, id)
         == NewBooking(items, users2, itemId, start, end, bookerId, now, id)
  {
  }

  /** The owner's decision in updateAvailableStatus: the booking and the caller
      must exist, the caller must not be the booker, must own the item, and the
      booking must still be WAITING; an absent (null) `approved` flag fails
      when it is unboxed. */
  function Decide(table: seq<Booking>, users: map<int, User>, bookingId: int, approved: Option<bool>, userId: int)
    : (r: Result<Booking>)
    ensures Row(table, bookingId).None? ==> r == Err(NotFound)
    ensures Row(table, bookingId).Some? && userId !in users ==> r == Err(NotFound)
    ensures Row(table, bookingId).Some? && userId in users && Row(table, bookingId).value.booker.id == userId ==>
      r == Err(NotFound)
    ensures r.Ok? <==>
      && Row(table, bookingId).Some?
      && userId in users
      && Row(table, bookingId).value.booker.id != userId
      && Row(table, bookingId).value.item.owner.id == userId
      && Row(table, bookingId).value.status == Status.WAITING
      && approved.Some?
    ensures (Row(table, bookingId).Some? && userId in users && Row(table, bookingId).value.booker.id != userId
             && (Row(table, bookingId).value.item.owner.id != userId
                 || Row(table, bookingId).value.status != Status.WAITING)) ==>
      r == Err(Validation)
    ensures (Row(table, bookingId).Some? && userId in users && Row(table, bookingId).value.booker.id != userId
             && Row(table, bookingId).value.item.owner.id == userId
             && Row(table, bookingId).value.status == Status.WAITING && approved.None?) ==>
      r == Err(NullPointer)
    ensures r.Ok? ==>
      r.value == Row(table, bookingId).value.(status := if approved.value then Status.APPROVED else Status.REJECTED)
  {
    match Row(table, bookingId)
    case None => Err(NotFound)
    case Some(booking) =>
      if userId !in users then Err(NotFound)
      else if booking.booker.id == userId then Err(NotFound)
      else if booking.item.owner.id != userId || booking.status != Status.WAITING then Err(Validation)
      else if approved.None? then Err(NullPointer)
      else Ok(booking.(status := if approved.value then Status.APPROVED else Status.REJECTED))
  }

  /** A booking leaves WAITING at most once: after a successful decision every
      further decision on it fails, whoever asks and whatever they answer. */
  lemma DecisionIsFinal(table: seq<Booking>, users: map<int, User>, bookingId: int, approved: Option<bool>,
                        userId: int, approved2: Option<bool>, userId2: int)
    requires Decide(table, users, bookingId, approved, userId).Ok?
    ensures var decided := Decide(table, users, bookingId, approved, userId).value;
      && decided.status != Status.WAITING
      && Decide(table[bookingId - 1 := decided], users, bookingId, approved2, userId2).Err?
  {
    var decided := Decide(table, users, bookingId, approved, userId).value;
    var table' := table[bookingId - 1 := decided];
    assert Row(table', bookingId) == Some(decided);
  }

  /** The booking table written by `save` and `updateAvailableStatus`. */
  class BookingStore {
    var bookings: seq<Booking>

    ghost predicate Valid()
      reads this
    {
      BookingIds(bookings)
    }

    constructor ()
      ensures Valid() && bookings == []
    {
      bookings := [];
    }

    /** save: on success the new WAITING booking is appended with the next id. */
    method Save(items: seq<Item>, users: map<int, User>, itemId: int, start: int, end: int, bookerId: int, now: int)
      returns (r: Result<Booking>)
      requires Valid()
      modifies this
      ensures Valid()
      ensures r == NewBooking(items, users, itemId, start, end, bookerId, now, |old(bookings)| + 1)
      ensures r.Ok? ==> bookings == old(bookings) + [r.value] && r.value.status == Status.WAITING
      ensures r.Err? ==> bookings == old(bookings)
    {
      r := NewBooking(items, users, itemId, start, end, bookerId, now, |bookings| + 1);
      if r.Ok? {
        bookings := bookings + [r.value];
      }
    }

    /** updateAvailableStatus: on success the booking's status is set in place
        and no other row or field changes; on failure nothing is saved. */
    method UpdateAvailableStatus(users: map<int, User>, bookingId: int, approved: Option<bool>, userId: int)
      returns (r: Result<Booking>)
      requires Valid()
      modifies this
      ensures Valid()
      ensures r == Decide(old(bookings), users, bookingId, approved, userId)
      ensures r.Ok? ==> bookings == old(bookings)[bookingId - 1 := r.value]
      ensures r.Err? ==> bookings == old(bookings)
    {
      r := Decide(bookings, users, bookingId, approved, userId);
      if r.Ok? {
        bookings := bookings[bookingId - 1 := r.value];
      }
    }
  }
}
