/** The selection predicates of the booking repository's queries. Each query
    is a filter over the booking table, kept in table order; the page or sort
    the caller passes is not modelled. */
module BookingQueries {
  import opened Common
  import opened Entities
  import Comparators

  /** `b.start < :time and b.end > :time` */
  predicate IsCurrent(b: Booking, now: int) { b.start < now && b.end > now }

  /** `b.end < :time` */
  predicate IsPast(b: Booking, now: int) { b.end < now }

  /** `b.start > :time` */
  predicate IsFuture(b: Booking, now: int) { b.start > now }

  function FindByBooker(table: seq<Booking>, booker: User): (r: seq<Booking>)
    ensures forall b :: b in r <==> b in table && b.booker.id == booker.id
  {
    Filter(table, (b: Booking) => b.booker.id == booker.id)
  }

  function FindByBookerCurrent(table: seq<Booking>, booker: User, now: int): (r: seq<Booking>)
    ensures forall b :: b in r <==> b in table && b.booker.id == booker.id && IsCurrent(b, now)
  {
    Filter(table, (b: Booking) => b.booker.id == booker.id && IsCurrent(b, now))
  }

  function FindByBookerPast(table: seq<Booking>, booker: User, now: int): (r: seq<Booking>)
    ensures forall b :: b in r <==> b in table && b.booker.id == booker.id && IsPast(b, now)
  {
    Filter(table, (b: Booking) => b.booker.id == booker.id && IsPast(b, now))
  }

  function FindByBookerFuture(table: seq<Booking>, booker: User, now: int): (r: seq<Booking>)
    ensures forall b :: b in r <==> b in table && b.booker.id == booker.id && IsFuture(b, now)
  {
    Filter(table, (b: Booking) => b.booker.id == booker.id && IsFuture(b, now))
  }

  function FindByBookerAndStatus(table: seq<Booking>, booker: User, status: Status): (r: seq<Booking>)
    ensures forall b :: b in r <==> b in table && b.booker.id == booker.id && b.status == status
  {
    Filter(table, (b: Booking) => b.booker.id == booker.id && b.status == status)
  }

  function FindByItemOwner(table: seq<Booking>, owner: User): (r: seq<Booking>)
    ensures forall b :: b in r <==> b in table && b.item.owner.id == owner.id
  {
    Filter(table, (b: Booking) => b.item.owner.id == owner.id)
  }

  function FindByItemOwnerCurrent(table: seq<Booking>, owner: User, now: int): (r: seq<Booking>)
    ensures forall b :: b in r <==> b in table && b.item.owner.id == owner.id && IsCurrent(b, now)
  {
    Filter(table, (b: Booking) => b.item.owner.id == owner.id && IsCurrent(b, now))
  }

  function FindByItemOwnerPast(table: seq<Booking>, owner: User, now: int): (r: seq<Booking>)
    ensures forall b :: b in r <==> b in table && b.item.owner.id == owner.id && IsPast(b, now)
  {
    Filter(table, (b: Booking) => b.item.owner.id == owner.id && IsPast(b, now))
  }

  function FindByItemOwnerFuture(table: seq<Booking>, owner: User, now: int): (r: seq<Booking>)
    ensures forall b :: b in r <==> b in table && b.item.owner.id == owner.id && IsFuture(b, now)
  {
    Filter(table, (b: Booking) => b.item.owner.id == owner.id && IsFuture(b, now))
  }

  function FindByItemOwnerAndStatus(table: seq<Booking>, owner: User, status: Status): (r: seq<Booking>)
    ensures forall b :: b in r <==> b in table && b.item.owner.id == owner.id && b.status == status
  {
    Filter(table, (b: Booking) => b.item.owner.id == owner.id && b.status == status)
  }

  /** findBookingsByItemId: the bookings of the given items, owned by `ownerId`
      and in `status`, ordered by start. */
  function FindBookingsByItemId(table: seq<Booking>, itemIds: seq<int>, ownerId: int, status: Status): (r: seq<Booking>)
    ensures forall b :: b in r <==> b in table && b.item.id in itemIds && b.item.owner.id == ownerId && b.status == status
    ensures forall i, j :: 0 <= i < j < |r| ==> r[i].start <= r[j].start
  {
    var selected := Filter(table, (b: Booking) => b.item.id in itemIds && b.item.owner.id == ownerId && b.status == status);
    Comparators.SortAscOrdered(selected);
    Comparators.SortAscMembers(selected);
    Comparators.SortAsc(selected)
  }

  /** findBookingByItemIdAndStatusNotInAndStartBefore. */
  function FindByItemIdStatusNotInStartBefore(table: seq<Booking>, itemId: int, statuses: seq<Status>, time: int): (r: seq<Booking>)
    ensures forall b :: b in r <==> b in table && b.item.id == itemId && b.status !in statuses && b.start < time
  {
    Filter(table, (b: Booking) => b.item.id == itemId && b.status !in statuses && b.start < time)
  }

  /** findBookingsByItemIn. */
  function FindBookingsByItemIn(table: seq<Booking>, itemIds: seq<int>): (r: seq<Booking>)
    ensures forall b :: b in r <==> b in table && b.item.id in itemIds
  {
    Filter(table, (b: Booking) => b.item.id in itemIds)
  }

  /** Every time comparison is strict: a booking ending right now is neither
      current nor past, one starting right now is neither current nor future. */
  lemma StrictTimeBoundaries(table: seq<Booking>, user: User, now: int, b: Booking)
    ensures b.end == now ==> b !in FindByBookerCurrent(table, user, now) && b !in FindByBookerPast(table, user, now)
    ensures b.start == now ==> b !in FindByBookerCurrent(table, user, now) && b !in FindByBookerFuture(table, user, now)
    ensures b.end == now ==> b !in FindByItemOwnerCurrent(table, user, now) && b !in FindByItemOwnerPast(table, user, now)
    ensures b.start == now ==> b !in FindByItemOwnerCurrent(table, user, now) && b !in FindByItemOwnerFuture(table, user, now)
  {
  }

  /** A booking with start before end that neither starts nor ends right now
      belongs to exactly one of the CURRENT, PAST and FUTURE views. */
  lemma TimeViewsPartition(b: Booking, now: int)
    requires b.start < b.end && b.start != now && b.end != now
    ensures IsCurrent(b, now) || IsPast(b, now) || IsFuture(b, now)
    ensures !(IsCurrent(b, now) && IsPast(b, now))
    ensures !(IsCurrent(b, now) && IsFuture(b, now))
    ensures !(IsPast(b, now) && IsFuture(b, now))
  {
  }
}
