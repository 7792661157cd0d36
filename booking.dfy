/**
 * The customer booking workflow (BookingController): browsing the rooms of a
 * category, counting the rooms free for a room type, booking rooms with an
 * optional coupon, and turning the booked reservation into checkout line
 * items. The database is an explicit store: a rooms table (an array, whose
 * rows Book flips in place), the coupon table by code, and the reservation
 * and reservation-room tables.
 */
module Booking {
  import opened Wrappers
  import opened Text

  /** The room-type tag (an enumeration in the source). */
  type Category = int

  datatype RoomType = RoomType(category: Category, pricePN: int, mealPrice: Option<int>)

  datatype Room = Room(id: int, hotelId: int, isAvailable: bool, roomType: Option<RoomType>)

  /** The room type the customer picked: hotel, category, price per night and meal price. */
  datatype TypeQuery = TypeQuery(hotelId: int, category: Category, pricePN: int, mealPrice: Option<int>)

  /** A coupon: remaining uses and the discount as the whole amount the booking subtracts. */
  datatype Coupon = Coupon(limit: int, discount: int)

  /** The booking form. Dates are day numbers. */
  datatype BookingForm = BookingForm(
    hotelId: int,
    nAdult: int,
    nChildren: Option<int>,
    checkIn: int,
    checkOut: int,
    roomCount: int,
    includesMeal: bool,
    couponCode: Option<string>)

  datatype Reservation = Reservation(
    id: int,
    hotelId: int,
    userId: string,
    nAdult: int,
    nChildren: int,
    checkIn: int,
    checkOut: int,
    roomCount: int,
    totalPrice: int)

  datatype ReservationRoom = ReservationRoom(roomId: int, reservationId: int)

  datatype BookOutcome =
    | RedirectLogin
    | NotEnoughRooms
    | InvalidCoupon
    | Booked(reservationId: int)

  /** The tables the workflow reads and writes; reservation ids come from a counter. */
  datatype Store = Store(
    hotelIds: set<int>,
    rooms: seq<Room>,
    coupons: map<string, Coupon>,
    reservations: seq<Reservation>,
    links: seq<ReservationRoom>,
    nextReservationId: int)

  /** The number of reservation-room links that point at reservation rid. */
  function LinkCount(links: seq<ReservationRoom>, rid: int): nat {
    if links == [] then 0
    else (if links[0].reservationId == rid then 1 else 0) + LinkCount(links[1..], rid)
  }

  /**
   * Store invariant: reservation ids increase and stay below the counter,
   * coupon discounts lie in [0, 99], every link points below the counter, and
   * each reservation has as many room links as the rooms it booked.
   */
  predicate StoreValid(s: Store) {
    && (forall j, k :: 0 <= j < k < |s.reservations| ==> s.reservations[j].id < s.reservations[k].id)
    && (forall r :: r in s.reservations ==> r.id < s.nextReservationId)
    && (forall code :: code in s.coupons ==> 0 <= s.coupons[code].discount <= 99)
    && (forall l :: l in s.links ==> l.reservationId < s.nextReservationId)
    && (forall r :: r in s.reservations ==> LinkCount(s.links, r.id) == r.roomCount)
  }

  // ----- Filter: browsing a category -----

  predicate InCategory(r: Room, hotelId: int, category: Category) {
    r.hotelId == hotelId && r.roomType.Some? && r.roomType.value.category == category
  }

  /** BookingController.Filter: the hotel's rooms of the category, booked or not, in store order. */
  function Filter(rooms: seq<Room>, hotelId: int, category: Category): (r: seq<Room>)
    ensures forall x :: x in r <==> x in rooms && InCategory(x, hotelId, category)
    ensures |r| <= |rooms|
  {
    if rooms == [] then []
    else (if InCategory(rooms[0], hotelId, category) then [rooms[0]] else []) + Filter(rooms[1..], hotelId, category)
  }

  /** Two room tables that differ at most in availability flags. */
  predicate SameUpToAvailability(a: seq<Room>, b: seq<Room>) {
    |a| == |b| && forall j :: 0 <= j < |a| ==> a[j].(isAvailable := b[j].isAvailable) == b[j]
  }

  /** Filter does not look at availability: flipping flags flips them in its answer and nothing more. */
  lemma {:induction false} FilterIgnoresAvailability(a: seq<Room>, b: seq<Room>, hotelId: int, category: Category)
    requires SameUpToAvailability(a, b)
    ensures SameUpToAvailability(Filter(a, hotelId, category), Filter(b, hotelId, category))
  {
    if a != [] {
      assert a[0].(isAvailable := b[0].isAvailable) == b[0];
      FilterIgnoresAvailability(a[1..], b[1..], hotelId, category);
    }
  }

  // ----- Book (GET): counting free rooms of a type -----

  /** A room can be booked for the query: right hotel, free, and a type equal in category, price and meal price. */
  predicate Matches(r: Room, q: TypeQuery) {
    && r.hotelId == q.hotelId
    && r.isAvailable
    && r.roomType.Some?
    && r.roomType.value.category == q.category
    && r.roomType.value.pricePN == q.pricePN
    && r.roomType.value.mealPrice == q.mealPrice
  }

  /** The positions from i on of the bookable rooms, in store order. */
  function AvailableFrom(rooms: seq<Room>, q: TypeQuery, i: nat): (idx: seq<int>)
    requires i <= |rooms|
    ensures forall k :: 0 <= k < |idx| ==> i <= idx[k] < |rooms| && Matches(rooms[idx[k]], q)
    ensures forall j :: i <= j < |rooms| && Matches(rooms[j], q) ==> j in idx
    ensures forall j, k :: 0 <= j < k < |idx| ==> idx[j] < idx[k]
    decreases |rooms| - i
  {
    if i == |rooms| then []
    else if Matches(rooms[i], q) then [i] + AvailableFrom(rooms, q, i + 1)
    else AvailableFrom(rooms, q, i + 1)
  }

  /** The positions of the bookable rooms, in store order. */
  function AvailableIndices(rooms: seq<Room>, q: TypeQuery): (idx: seq<int>)
    ensures forall k :: 0 <= k < |idx| ==> 0 <= idx[k] < |rooms| && Matches(rooms[idx[k]], q)
    ensures forall i :: 0 <= i < |rooms| && Matches(rooms[i], q) ==> i in idx
    ensures forall j, k :: 0 <= j < k < |idx| ==> idx[j] < idx[k]
  {
    AvailableFrom(rooms, q, 0)
  }

  /** The positions of all bookable rooms, as a set. */
  function MatchSet(rooms: seq<Room>, q: TypeQuery): set<int> {
    set i | 0 <= i < |rooms| && Matches(rooms[i], q)
  }

  lemma {:induction false} IncreasingCard(s: seq<int>)
    requires forall j, k :: 0 <= j < k < |s| ==> s[j] < s[k]
    ensures |set x | x in s| == |s|
  {
    if s != [] {
      var n := |s| - 1;
      IncreasingCard(s[..n]);
      assert (set x | x in s) == (set x | x in s[..n]) + {s[n]};
      assert s[n] !in (set x | x in s[..n]);
    }
  }

  /** The list the booking takes rooms from is as long as the number of bookable rooms. */
  lemma AvailableCountIsMatchCount(rooms: seq<Room>, q: TypeQuery)
    ensures |AvailableIndices(rooms, q)| == |MatchSet(rooms, q)|
  {
    var idx := AvailableIndices(rooms, q);
    assert (set x | x in idx) == MatchSet(rooms, q);
    IncreasingCard(idx);
  }

  datatype AvailabilityView = HotelNotFound | Availability(availableRooms: nat)

  /** BookingController.Book (GET): not found for an unknown hotel, else the number of bookable rooms. */
  function AvailableRooms(s: Store, q: TypeQuery): (r: AvailabilityView)
    ensures r.HotelNotFound? <==> q.hotelId !in s.hotelIds
    ensures r.Availability? ==> r.availableRooms == |MatchSet(s.rooms, q)|
  {
    if q.hotelId !in s.hotelIds then HotelNotFound
    else
      AvailableCountIsMatchCount(s.rooms, q);
      Availability(|AvailableIndices(s.rooms, q)|)
  }

  // ----- Book (POST): the booking as a function of the store -----

  /** The price before any coupon, from the type of the first room the booking takes. */
  function BasePrice(rt: RoomType, roomCount: int, includesMeal: bool): int {
    rt.pricePN * roomCount + (if includesMeal && rt.mealPrice.Some? then rt.mealPrice.value * roomCount else 0)
  }

  /** The price before any coupon, in terms of the room type the customer asked for. */
  function QuotedPrice(q: TypeQuery, roomCount: int, includesMeal: bool): int {
    q.pricePN * roomCount + (if includesMeal && q.mealPrice.Some? then q.mealPrice.value * roomCount else 0)
  }

  datatype CouponStep = NoCoupon | Redeemed(discount: int, coupons: map<string, Coupon>) | Rejected

  /** The coupon step: no code skips it; a known code with uses left is spent once; anything else rejects the booking. */
  function RedeemCoupon(coupons: map<string, Coupon>, code: Option<string>): (r: CouponStep)
    ensures r.NoCoupon? <==> IsNullOrEmpty(code)
    ensures r.Rejected? <==> !IsNullOrEmpty(code) && (code.value !in coupons || coupons[code.value].limit <= 0)
    ensures r.Redeemed? ==>
              && r.discount == coupons[code.value].discount
              && r.coupons.Keys == coupons.Keys
              && r.coupons[code.value].limit == coupons[code.value].limit - 1
              && r.coupons[code.value].discount == coupons[code.value].discount
              && (forall c :: c in coupons && c != code.value ==> r.coupons[c] == coupons[c])
  {
    if IsNullOrEmpty(code) then NoCoupon
    else if code.value in coupons && coupons[code.value].limit > 0 then
      var c := coupons[code.value];
      Redeemed(c.discount, coupons[code.value := c.(limit := c.limit - 1)])
    else Rejected
  }

  /** Rooms table after the rooms at the picked positions are booked. */
  function MarkBooked(rooms: seq<Room>, picked: seq<int>): (r: seq<Room>)
    ensures |r| == |rooms|
  {
    seq(|rooms|, j requires 0 <= j < |rooms| => if j in picked then rooms[j].(isAvailable := false) else rooms[j])
  }

  /** One link per picked room, in pick order, to reservation rid. */
  function LinksFor(rooms: seq<Room>, picked: seq<int>, rid: int): (r: seq<ReservationRoom>)
    requires forall k :: 0 <= k < |picked| ==> 0 <= picked[k] < |rooms|
    ensures |r| == |picked|
  {
    seq(|picked|, k requires 0 <= k < |picked| => ReservationRoom(rooms[picked[k]].id, rid))
  }

  /**
   * BookingController.Book (POST) as a function of the store: the outcome
   * and the store afterwards.
   */
  function BookSpec(s: Store, userId: Option<string>, form: BookingForm, q: TypeQuery): (r: (BookOutcome, Store))
    requires form.roomCount >= 1
    ensures r.0.RedirectLogin? <==> userId.None?
    ensures r.0.NotEnoughRooms? <==> userId.Some? && |MatchSet(s.rooms, q)| < form.roomCount
    ensures r.0.InvalidCoupon? <==>
              && userId.Some? && |MatchSet(s.rooms, q)| >= form.roomCount
              && !IsNullOrEmpty(form.couponCode)
              && (form.couponCode.value !in s.coupons || s.coupons[form.couponCode.value].limit <= 0)
    ensures !r.0.Booked? ==> r.1 == s
    ensures r.0.Booked? ==> r.0.reservationId == s.nextReservationId
  {
    AvailableCountIsMatchCount(s.rooms, q);
    if userId.None? then (RedirectLogin, s)
    else
      var available := AvailableIndices(s.rooms, q);
      if |available| < form.roomCount then (NotEnoughRooms, s)
      else
        var base := BasePrice(s.rooms[available[0]].roomType.value, form.roomCount, form.includesMeal);
        assert base == QuotedPrice(q, form.roomCount, form.includesMeal);
        var step := RedeemCoupon(s.coupons, form.couponCode);
        if step.Rejected? then (InvalidCoupon, s)
        else
          var total := if step.Redeemed? then base - step.discount else base;
          var coupons := if step.Redeemed? then step.coupons else s.coupons;
          var rid := s.nextReservationId;
          var reservation := Reservation(rid, form.hotelId, userId.value, form.nAdult, form.nChildren.GetOr(0),
                                         form.checkIn, form.checkOut, form.roomCount, total);
          var picked := available[..form.roomCount];
          (Booked(rid), Store(s.hotelIds, MarkBooked(s.rooms, picked), coupons, s.reservations + [reservation],
                              s.links + LinksFor(s.rooms, picked, rid), rid + 1))
  }

  /** When every check passes, BookSpec stores the reservation built from the coupon step and takes the picked rooms. */
  lemma BookSpecSucceeds(s: Store, userId: Option<string>, form: BookingForm, q: TypeQuery,
                         step: CouponStep, reservation: Reservation)
    requires form.roomCount >= 1 && userId.Some?
    requires |AvailableIndices(s.rooms, q)| >= form.roomCount
    requires step == RedeemCoupon(s.coupons, form.couponCode) && !step.Rejected?
    requires reservation == Reservation(
               s.nextReservationId, form.hotelId, userId.value, form.nAdult, form.nChildren.GetOr(0),
               form.checkIn, form.checkOut, form.roomCount,
               BasePrice(s.rooms[AvailableIndices(s.rooms, q)[0]].roomType.value, form.roomCount, form.includesMeal)
                 - (if step.Redeemed? then step.discount else 0))
    ensures var picked := AvailableIndices(s.rooms, q)[..form.roomCount];
            BookSpec(s, userId, form, q) ==
              (Booked(s.nextReservationId),
               Store(s.hotelIds, MarkBooked(s.rooms, picked), if step.Redeemed? then step.coupons else s.coupons,
                     s.reservations + [reservation], s.links + LinksFor(s.rooms, picked, s.nextReservationId),
                     s.nextReservationId + 1))
  {
  }

  /** The first roomCount bookable rooms, the ones a successful booking takes. */
  function Picked(s: Store, form: BookingForm, q: TypeQuery): (picked: seq<int>)
    requires |AvailableIndices(s.rooms, q)| >= form.roomCount >= 0
    ensures |picked| == form.roomCount
    ensures forall k :: 0 <= k < |picked| ==> 0 <= picked[k] < |s.rooms| && Matches(s.rooms[picked[k]], q)
    ensures forall j, k :: 0 <= j < k < |picked| ==> picked[j] < picked[k]
    ensures forall i :: 0 <= i < |s.rooms| && Matches(s.rooms[i], q) && |picked| > 0 && i <= picked[|picked| - 1] ==>
              i in picked
  {
    AvailableIndices(s.rooms, q)[..form.roomCount]
  }

  /** The stored reservation: the form's counts and dates, no children when none are given, and the quoted price less the coupon. */
  lemma BookedReservation(s: Store, userId: Option<string>, form: BookingForm, q: TypeQuery)
    requires form.roomCount >= 1 && BookSpec(s, userId, form, q).0.Booked?
    ensures var t := BookSpec(s, userId, form, q).1;
            var code := form.couponCode;
            var discount := if IsNullOrEmpty(code) then 0 else s.coupons[code.value].discount;
            && t.nextReservationId == s.nextReservationId + 1
            && t.hotelIds == s.hotelIds
            && t.reservations == s.reservations + [Reservation(
                 s.nextReservationId, form.hotelId, userId.value, form.nAdult, form.nChildren.GetOr(0),
                 form.checkIn, form.checkOut, form.roomCount,
                 QuotedPrice(q, form.roomCount, form.includesMeal) - discount)]
  {
    AvailableCountIsMatchCount(s.rooms, q);
  }

  /** A booking with a coupon spends exactly one use of that coupon; one without leaves the coupons alone. */
  lemma BookedCoupons(s: Store, userId: Option<string>, form: BookingForm, q: TypeQuery)
    requires form.roomCount >= 1 && BookSpec(s, userId, form, q).0.Booked?
    ensures var t := BookSpec(s, userId, form, q).1;
            var code := form.couponCode;
            && (IsNullOrEmpty(code) ==> t.coupons == s.coupons)
            && (!IsNullOrEmpty(code) ==>
                  code.value in s.coupons && s.coupons[code.value].limit > 0 &&
                  t.coupons == s.coupons[code.value := s.coupons[code.value].(limit := s.coupons[code.value].limit - 1)])
  {
    AvailableCountIsMatchCount(s.rooms, q);
  }

  /** Exactly the first roomCount bookable rooms become unavailable, each linked once to the new reservation. */
  lemma BookedRooms(s: Store, userId: Option<string>, form: BookingForm, q: TypeQuery)
    requires form.roomCount >= 1 && BookSpec(s, userId, form, q).0.Booked?
    ensures |AvailableIndices(s.rooms, q)| >= form.roomCount
    ensures var t := BookSpec(s, userId, form, q).1;
            var picked := Picked(s, form, q);
            && |t.rooms| == |s.rooms|
            && (forall j :: 0 <= j < |s.rooms| ==>
                  t.rooms[j] == if j in picked then s.rooms[j].(isAvailable := false) else s.rooms[j])
            && t.links == s.links + LinksFor(s.rooms, picked, s.nextReservationId)
  {
    AvailableCountIsMatchCount(s.rooms, q);
  }

  // ----- Book (POST): what a booking does to the store as a whole -----

  lemma {:induction false} LinkCountAppend(a: seq<ReservationRoom>, b: seq<ReservationRoom>, rid: int)
    ensures LinkCount(a + b, rid) == LinkCount(a, rid) + LinkCount(b, rid)
  {
    if a != [] {
      assert (a + b)[1..] == a[1..] + b;
      LinkCountAppend(a[1..], b, rid);
    } else {
      assert a + b == b;
    }
  }

  lemma {:induction false} LinkCountNone(links: seq<ReservationRoom>, rid: int)
    requires forall l :: l in links ==> l.reservationId != rid
    ensures LinkCount(links, rid) == 0
  {
    if links != [] {
      assert forall l :: l in links[1..] ==> l in links;
      LinkCountNone(links[1..], rid);
    }
  }

  lemma {:induction false} LinkCountAllTo(links: seq<ReservationRoom>, rid: int)
    requires forall l :: l in links ==> l.reservationId == rid
    ensures LinkCount(links, rid) == |links|
  {
    if links != [] {
      assert forall l :: l in links[1..] ==> l in links;
      LinkCountAllTo(links[1..], rid);
    }
  }

  /**
   * Appending a reservation with the counter's id, and links to it only, one
   * per room it books, keeps the store invariant.
   */
  lemma AddReservationKeepsValid(s: Store, t: Store, res: Reservation, added: seq<ReservationRoom>)
    requires StoreValid(s)
    requires res.id == s.nextReservationId && t.nextReservationId == res.id + 1
    requires t.reservations == s.reservations + [res]
    requires t.links == s.links + added
    requires |added| == res.roomCount
    requires forall l :: l in added ==> l.reservationId == res.id
    requires forall code :: code in t.coupons ==> 0 <= t.coupons[code].discount <= 99
    ensures StoreValid(t)
  {
    LinkCountAllTo(added, res.id);
    forall r | r in t.reservations
      ensures LinkCount(t.links, r.id) == r.roomCount
    {
      LinkCountAppend(s.links, added, r.id);
      if r in s.reservations {
        assert r.id < res.id;
        LinkCountNone(added, r.id);
      } else {
        assert r == res;
        LinkCountNone(s.links, res.id);
      }
    }
    forall j, k | 0 <= j < k < |t.reservations|
      ensures t.reservations[j].id < t.reservations[k].id
    {
      if k == |s.reservations| {
        assert t.reservations[j] in s.reservations;
      }
    }
  }

  /** A booking keeps the store invariant; in particular the new reservation gets one room link per room booked. */
  lemma BookPreservesValid(s: Store, userId: Option<string>, form: BookingForm, q: TypeQuery)
    requires form.roomCount >= 1 && StoreValid(s)
    ensures StoreValid(BookSpec(s, userId, form, q).1)
  {
    if BookSpec(s, userId, form, q).0.Booked? {
      var t := BookSpec(s, userId, form, q).1;
      BookedReservation(s, userId, form, q);
      BookedCoupons(s, userId, form, q);
      BookedRooms(s, userId, form, q);
      var added := LinksFor(s.rooms, Picked(s, form, q), s.nextReservationId);
      AddReservationKeepsValid(s, t, t.reservations[|s.reservations|], added);
    }
  }

  lemma CardDifference(a: set<int>, b: set<int>)
    requires b <= a
    ensures |a - b| == |a| - |b|
  {
    assert a == (a - b) + b;
  }

  /** Booking the picked rooms removes exactly those positions from the bookable ones. */
  lemma MarkBookedMatchSet(rooms: seq<Room>, picked: seq<int>, q: TypeQuery)
    requires forall k :: 0 <= k < |picked| ==> 0 <= picked[k] < |rooms| && Matches(rooms[picked[k]], q)
    ensures MatchSet(MarkBooked(rooms, picked), q) == MatchSet(rooms, q) - (set x | x in picked)
    ensures (set x | x in picked) <= MatchSet(rooms, q)
  {
  }

  /** A booking leaves exactly roomCount fewer bookable rooms of the booked type. */
  lemma BookingTakesRoomCountRooms(s: Store, userId: Option<string>, form: BookingForm, q: TypeQuery)
    requires form.roomCount >= 1 && BookSpec(s, userId, form, q).0.Booked?
    ensures |MatchSet(BookSpec(s, userId, form, q).1.rooms, q)| == |MatchSet(s.rooms, q)| - form.roomCount
  {
    BookedRooms(s, userId, form, q);
    var t := BookSpec(s, userId, form, q).1;
    var picked := Picked(s, form, q);
    assert forall j, k :: 0 <= j < k < |picked| ==> picked[j] < picked[k];
    IncreasingCard(picked);
    assert t.rooms == MarkBooked(s.rooms, picked);
    MarkBookedMatchSet(s.rooms, picked, q);
    CardDifference(MatchSet(s.rooms, q), set x | x in picked);
  }

  /** A booking only clears availability flags: no room becomes bookable for any query, and Filter sees the same rooms. */
  lemma BookingOnlyClearsFlags(s: Store, userId: Option<string>, form: BookingForm, q: TypeQuery)
    requires form.roomCount >= 1
    ensures SameUpToAvailability(s.rooms, BookSpec(s, userId, form, q).1.rooms)
    ensures forall q2 :: MatchSet(BookSpec(s, userId, form, q).1.rooms, q2) <= MatchSet(s.rooms, q2)
  {
    if BookSpec(s, userId, form, q).0.Booked? {
      BookedRooms(s, userId, form, q);
    }
  }

  /** A coupon with one use left admits one booking; the next booking with the same code is refused. */
  lemma CouponUsedUp(s: Store, userId: Option<string>, form: BookingForm, q: TypeQuery,
                     userId2: Option<string>, form2: BookingForm, q2: TypeQuery)
    requires form.roomCount >= 1 && form2.roomCount >= 1
    requires !IsNullOrEmpty(form.couponCode) && form.couponCode.value in s.coupons
    requires s.coupons[form.couponCode.value].limit == 1
    requires BookSpec(s, userId, form, q).0.Booked?
    requires form2.couponCode == form.couponCode
    ensures !BookSpec(BookSpec(s, userId, form, q).1, userId2, form2, q2).0.Booked?
  {
    BookedCoupons(s, userId, form, q);
  }

  /** Three free rooms of one type at 100 a night, no meal price, in hotel 7. */
  function ThreeFreeRooms(): seq<Room> {
    var rt := RoomType(0, 100, None);
    [Room(1, 7, true, Some(rt)), Room(2, 7, true, Some(rt)), Room(3, 7, true, Some(rt))]
  }

  lemma ThreeFreeRoomsAvailable(q: TypeQuery)
    requires q == TypeQuery(7, 0, 100, None)
    ensures AvailableIndices(ThreeFreeRooms(), q) == [0, 1, 2]
  {
    var rooms := ThreeFreeRooms();
    assert AvailableFrom(rooms, q, 2) == [2];
    assert AvailableFrom(rooms, q, 1) == [1, 2];
  }

  /** Booking two of the three free rooms, without a coupon: reservation 1 at 200, the first two rooms taken. */
  lemma ThreeRoomsFirstBooking(s: Store, q: TypeQuery, form: BookingForm)
    requires s == Store({7}, ThreeFreeRooms(), map[], [], [], 1)
    requires q == TypeQuery(7, 0, 100, None) && form == BookingForm(7, 2, None, 10, 12, 2, false, None)
    ensures var r := BookSpec(s, Some("guest"), form, q);
            && r.0 == Booked(1)
            && r.1.reservations == [Reservation(1, 7, "guest", 2, 0, 10, 12, 2, 200)]
            && r.1.rooms == MarkBooked(ThreeFreeRooms(), [0, 1])
  {
    ThreeFreeRoomsAvailable(q);
    assert AvailableIndices(s.rooms, q)[..2] == [0, 1];
    BookSpecSucceeds(s, Some("guest"), form, q, NoCoupon, Reservation(1, 7, "guest", 2, 0, 10, 12, 2, 200));
  }

  /**
   * Three free rooms of one type at 100 a night, no meal price, no coupon:
   * booking two costs 200 and takes the first two rooms, leaving one, so that
   * a following request for four rooms is refused for lack of rooms.
   */
  lemma ThreeRoomsBookTwo()
    ensures var s := Store({7}, ThreeFreeRooms(), map[], [], [], 1);
            var q := TypeQuery(7, 0, 100, None);
            var r := BookSpec(s, Some("guest"), BookingForm(7, 2, None, 10, 12, 2, false, None), q);
            && r.0 == Booked(1)
            && r.1.reservations[0].totalPrice == 200
            && r.1.rooms == ThreeFreeRooms()[0 := ThreeFreeRooms()[0].(isAvailable := false)]
                                            [1 := ThreeFreeRooms()[1].(isAvailable := false)]
            && BookSpec(r.1, Some("guest"), BookingForm(7, 2, None, 10, 12, 4, false, None), q).0 == NotEnoughRooms
  {
    var rooms := ThreeFreeRooms();
    var s := Store({7}, rooms, map[], [], [], 1);
    var q := TypeQuery(7, 0, 100, None);
    var form := BookingForm(7, 2, None, 10, 12, 2, false, None);
    ThreeRoomsFirstBooking(s, q, form);
    var r := BookSpec(s, Some("guest"), form, q);
    assert r.1.rooms == rooms[0 := rooms[0].(isAvailable := false)][1 := rooms[1].(isAvailable := false)];
    assert |MatchSet(r.1.rooms, q)| == 1 by {
      ThreeFreeRoomsAvailable(q);
      AvailableCountIsMatchCount(rooms, q);
      BookingTakesRoomCountRooms(s, Some("guest"), form, q);
    }
  }

  // ----- Book (POST): the store, updated in place -----

  class BookingStore {
    const hotelIds: set<int>
    const rooms: array<Room>
    var coupons: map<string, Coupon>
    var reservations: seq<Reservation>
    var links: seq<ReservationRoom>
    var nextReservationId: int

    ghost function State(): Store
      reads this, rooms
    {
      Store(hotelIds, rooms[..], coupons, reservations, links, nextReservationId)
    }

    ghost predicate Valid()
      reads this, rooms
    {
      StoreValid(State())
    }

    constructor (initial: Store)
      requires StoreValid(initial)
      ensures Valid() && State() == initial && fresh(rooms)
    {
      hotelIds := initial.hotelIds;
      rooms := new Room[|initial.rooms|](i requires 0 <= i < |initial.rooms| => initial.rooms[i]);
      coupons := initial.coupons;
      reservations := initial.reservations;
      links := initial.links;
      nextReservationId := initial.nextReservationId;
    }

    /**
     * BookingController.Book (POST): takes the first form.roomCount rooms that
     * match the query, prices them, spends the coupon, stores the reservation,
     * then marks each taken room unavailable and links it to the reservation.
     */
    method Book(userId: Option<string>, form: BookingForm, q: TypeQuery) returns (outcome: BookOutcome)
      requires Valid() && form.roomCount >= 1
      modifies this, rooms
      ensures Valid()
      ensures (outcome, State()) == BookSpec(old(State()), userId, form, q)
    {
      ghost var start := State();
      if userId.None? {
        assert BookSpec(start, userId, form, q) == (RedirectLogin, start);
        return RedirectLogin;
      }
      var available := AvailableIndices(rooms[..], q);
      if |available| < form.roomCount {
        assert BookSpec(start, userId, form, q) == (NotEnoughRooms, start);
        return NotEnoughRooms;
      }
      var totalPrice := BasePrice(rooms[available[0]].roomType.value, form.roomCount, form.includesMeal);
      var step := SpendCoupon(form.couponCode);
      if step.Rejected? {
        assert BookSpec(start, userId, form, q) == (InvalidCoupon, start);
        return InvalidCoupon;
      }
      if step.Redeemed? {
        totalPrice := totalPrice - step.discount;
      }
      var reservation := Reservation(nextReservationId, form.hotelId, userId.value, form.nAdult,
                                     form.nChildren.GetOr(0), form.checkIn, form.checkOut, form.roomCount, totalPrice);
      ghost var picked := available[..form.roomCount];
      ghost var after := Store(start.hotelIds, MarkBooked(start.rooms, picked), coupons, start.reservations + [reservation],
                               start.links + LinksFor(start.rooms, picked, start.nextReservationId), start.nextReservationId + 1);
      assert BookSpec(start, userId, form, q) == (Booked(reservation.id), after) by {
        BookSpecSucceeds(start, userId, form, q, step, reservation);
      }
      Commit(reservation, available[..form.roomCount]);
      outcome := Booked(reservation.id);
      assert State() == after;
      assert Valid() by {
        BookPreservesValid(start, userId, form, q);
      }
    }

    /** The end of Book: stores the reservation under the next id, then takes the picked rooms for it. */
    method Commit(reservation: Reservation, picked: seq<int>)
      requires reservation.id == nextReservationId
      requires forall k :: 0 <= k < |picked| ==> 0 <= picked[k] < rooms.Length
      requires forall j, k :: 0 <= j < k < |picked| ==> picked[j] < picked[k]
      modifies this, rooms
      ensures State() == Store(hotelIds, MarkBooked(old(rooms[..]), picked), old(coupons),
                               old(reservations) + [reservation],
                               old(links) + LinksFor(old(rooms[..]), picked, reservation.id), old(nextReservationId) + 1)
    {
      reservations := reservations + [reservation];
      nextReservationId := nextReservationId + 1;
      TakeRooms(picked, reservation.id);
    }

    /** The coupon step of Book: a known code with uses left loses one use; the coupons change in no other case. */
    method SpendCoupon(code: Option<string>) returns (step: CouponStep)
      modifies this`coupons
      ensures step == RedeemCoupon(old(coupons), code)
      ensures coupons == if step.Redeemed? then step.coupons else old(coupons)
    {
      if IsNullOrEmpty(code) {
        return NoCoupon;
      }
      if code.value in coupons && coupons[code.value].limit > 0 {
        var coupon := coupons[code.value];
        coupons := coupons[code.value := coupon.(limit := coupon.limit - 1)];
        return Redeemed(coupon.discount, coupons);
      }
      return Rejected;
    }

    /**
     * The loop at the end of Book: each picked room is marked unavailable and
     * gets a link to reservation rid, in pick order.
     */
    method TakeRooms(picked: seq<int>, rid: int)
      requires forall k :: 0 <= k < |picked| ==> 0 <= picked[k] < rooms.Length
      requires forall j, k :: 0 <= j < k < |picked| ==> picked[j] < picked[k]
      modifies rooms, this`links
      ensures rooms[..] == MarkBooked(old(rooms[..]), picked)
      ensures links == old(links) + LinksFor(old(rooms[..]), picked, rid)
    {
      ghost var before := rooms[..];
      var i := 0;
      while i < |picked|
        invariant 0 <= i <= |picked|
        invariant rooms[..] == MarkBooked(before, picked[..i])
        invariant links == old(links) + LinksFor(before, picked[..i], rid)
      {
        var k := picked[i];
        var room := rooms[k];
        assert k !in picked[..i];
        assert room == before[k];
        rooms[k] := room.(isAvailable := false);
        links := links + [ReservationRoom(room.id, rid)];
        assert picked[..i + 1] == picked[..i] + [k];
        i := i + 1;
      }
      assert picked[..i] == picked;
    }
  }

  // ----- Pay: checkout line items -----

  const Currency: string := "egp"

  /** A checkout line item: what it is for (hotel, rooms), the unit amount in piastres, quantity and currency. */
  datatype LineItem = LineItem(hotelId: int, roomCount: int, unitAmount: int, quantity: int, currency: string)

  /** The reservations Pay charges: the signed-in user's, with the requested id. */
  predicate ForCheckout(r: Reservation, userId: Option<string>, reservationId: int) {
    userId == Some(r.userId) && r.id == reservationId
  }

  function LineItemFor(r: Reservation): LineItem {
    LineItem(r.hotelId, r.roomCount, r.totalPrice * 100, 1, Currency)
  }

  /** The line items Pay sends to the payment gateway, one per charged reservation, in store order. */
  function CheckoutItems(reservations: seq<Reservation>, userId: Option<string>, reservationId: int): (items: seq<LineItem>)
    ensures |items| <= |reservations|
    ensures forall k :: 0 <= k < |items| ==> items[k].quantity == 1 && items[k].currency == Currency
    ensures forall r :: r in reservations && ForCheckout(r, userId, reservationId) ==> LineItemFor(r) in items
  {
    if reservations == [] then []
    else
      var n := |reservations| - 1;
      var prev := CheckoutItems(reservations[..n], userId, reservationId);
      assert forall r :: r in reservations ==> r in reservations[..n] || r == reservations[n];
      prev + (if ForCheckout(reservations[n], userId, reservationId) then [LineItemFor(reservations[n])] else [])
  }

  /** Every line item charges a reservation of the signed-in user with the requested id: its total price in piastres. */
  lemma {:induction false} CheckoutItemsCharged(reservations: seq<Reservation>, userId: Option<string>, reservationId: int, k: int)
    requires 0 <= k < |CheckoutItems(reservations, userId, reservationId)|
    ensures exists j :: 0 <= j < |reservations| && ForCheckout(reservations[j], userId, reservationId) &&
                        CheckoutItems(reservations, userId, reservationId)[k] == LineItemFor(reservations[j])
  {
    var n := |reservations| - 1;
    var prev := CheckoutItems(reservations[..n], userId, reservationId);
    if k < |prev| {
      CheckoutItemsCharged(reservations[..n], userId, reservationId, k);
      var j :| 0 <= j < n && ForCheckout(reservations[..n][j], userId, reservationId) &&
               prev[k] == LineItemFor(reservations[..n][j]);
      assert reservations[..n][j] == reservations[j];
    } else {
      assert ForCheckout(reservations[n], userId, reservationId);
    }
  }

  /** Reservation ids are unique in a valid store, so Pay charges at most one reservation, and one exactly when it is the user's. */
  lemma {:induction false} CheckoutSingleItem(reservations: seq<Reservation>, userId: Option<string>, reservationId: int)
    requires forall j, k :: 0 <= j < k < |reservations| ==> reservations[j].id < reservations[k].id
    ensures |CheckoutItems(reservations, userId, reservationId)| ==
              if exists r :: r in reservations && ForCheckout(r, userId, reservationId) then 1 else 0
  {
    if reservations != [] {
      var n := |reservations| - 1;
      var prefix := reservations[..n];
      CheckoutSingleItem(prefix, userId, reservationId);
      assert forall r :: r in reservations <==> r in prefix || r == reservations[n];
      if ForCheckout(reservations[n], userId, reservationId) {
        assert forall r :: r in prefix ==> r.id < reservations[n].id;
      }
    }
  }

  /** The loop in Pay that builds the line items (the checkout session itself is the gateway's). */
  method BuildLineItems(reservations: seq<Reservation>, userId: Option<string>, reservationId: int)
    returns (items: seq<LineItem>)
    ensures items == CheckoutItems(reservations, userId, reservationId)
  {
    items := [];
    var i := 0;
    while i < |reservations|
      invariant 0 <= i <= |reservations|
      invariant items == CheckoutItems(reservations[..i], userId, reservationId)
    {
      assert reservations[..i + 1][..i] == reservations[..i];
      if ForCheckout(reservations[i], userId, reservationId) {
        items := items + [LineItemFor(reservations[i])];
      }
      i := i + 1;
    }
    assert reservations[..i] == reservations;
  }
}
