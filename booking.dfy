/**
 * DomainModels/Booking.cs: `CalculateTotalPrice`, the price of a stay.
 *
 * Dates are `DateTime` tick counts (100 ns units); prices are `decimal`
 * values, modelled as exact reals.
 */
module Bookings {
  import opened Wrappers

  const TicksPerDay: int := 864_000_000_000

  datatype Room = Room(price: real)

  /** The join entity; only the room it points to matters here, None when that navigation is not loaded. */
  datatype BookingRoom = BookingRoom(room: Option<Room>)

  datatype Booking = Booking(checkInDate: int, checkOutDate: int, totalPrice: real, bookingRooms: seq<BookingRoom>)

  /** Integer division as C# does it on `long`: the quotient truncated toward zero. */
  function DivTruncate(a: int, b: int): (q: int)
    requires b > 0
    ensures a >= 0 ==> 0 <= q && q * b <= a < q * b + b
    ensures a < 0 ==> q <= 0 && (-q) * b <= -a < (-q) * b + b
  {
    if a >= 0 then DivBounds(a, b); a / b else DivBounds(-a, b); -((-a) / b)
  }

  lemma DivBounds(n: nat, b: int)
    requires b > 0
    ensures 0 <= n / b && (n / b) * b <= n < (n / b) * b + b
  {
  }

  /** `(CheckOutDate - CheckInDate).Days`: whole days of the difference, the fraction dropped toward zero. */
  function NumberOfDays(booking: Booking): int {
    DivTruncate(booking.checkOutDate - booking.checkInDate, TicksPerDay)
  }

  predicate Unloaded(br: BookingRoom) {
    br.room.None?
  }

  /**
   * `Sum(br => br.Room.Price * numberOfDays)`; None where `br.Room` is null
   * and reading its price throws.
   */
  function Charges(rooms: seq<BookingRoom>, days: int): (r: Option<real>)
    ensures r.None? <==> exists i :: 0 <= i < |rooms| && Unloaded(rooms[i])
  {
    if rooms == [] then Some(0.0)
    else match rooms[0].room
      case None => None
      case Some(room) =>
        assert forall i :: 0 <= i < |rooms| - 1 ==> rooms[1..][i] == rooms[i + 1];
        match Charges(rooms[1..], days)
        case None => None
        case Some(rest) => Some(room.price * days as real + rest)
  }

  /** The sum of the prices of the loaded rooms. */
  function PriceSum(rooms: seq<BookingRoom>): real {
    if rooms == [] then 0.0
    else (if rooms[0].room.Some? then rooms[0].room.value.price else 0.0) + PriceSum(rooms[1..])
  }

  /**
   * `CalculateTotalPrice()`: 0 without rooms, else each room's price for the
   * same number of days; None where a room is not loaded (the method throws).
   */
  function CalculateTotalPrice(booking: Booking): (r: Option<real>)
    ensures booking.bookingRooms == [] ==> r == Some(0.0)
    ensures r.None? <==> exists i :: 0 <= i < |booking.bookingRooms| && Unloaded(booking.bookingRooms[i])
  {
    if |booking.bookingRooms| == 0 then Some(0.0)
    else Charges(booking.bookingRooms, NumberOfDays(booking))
  }

  /** A booking without rooms costs nothing. */
  lemma NoRoomsNoCharge(booking: Booking)
    requires booking.bookingRooms == []
    ensures CalculateTotalPrice(booking) == Some(0.0)
  {
  }

  lemma {:induction false} ChargesFactor(rooms: seq<BookingRoom>, days: int)
    requires Charges(rooms, days).Some?
    ensures Charges(rooms, days).value == days as real * PriceSum(rooms)
  {
    if rooms != [] {
      ChargesFactor(rooms[1..], days);
    }
  }

  /** A total that is computed is the number of days times the sum of the room prices. */
  lemma TotalIsDaysTimesPrices(booking: Booking)
    requires CalculateTotalPrice(booking).Some?
    ensures CalculateTotalPrice(booking).value == NumberOfDays(booking) as real * PriceSum(booking.bookingRooms)
  {
    if booking.bookingRooms != [] {
      ChargesFactor(booking.bookingRooms, NumberOfDays(booking));
    }
  }

  lemma {:induction false} PriceSumNonNegative(rooms: seq<BookingRoom>)
    requires forall i :: 0 <= i < |rooms| && rooms[i].room.Some? ==> rooms[i].room.value.price >= 0.0
    ensures PriceSum(rooms) >= 0.0
  {
    if rooms != [] {
      PriceSumNonNegative(rooms[1..]);
    }
  }

  /** A stay that does not end before it starts, with no negative price, costs at least nothing. */
  lemma TotalNonNegative(booking: Booking)
    requires booking.checkInDate <= booking.checkOutDate
    requires forall i :: 0 <= i < |booking.bookingRooms| && booking.bookingRooms[i].room.Some? ==>
      booking.bookingRooms[i].room.value.price >= 0.0
    requires CalculateTotalPrice(booking).Some?
    ensures CalculateTotalPrice(booking).value >= 0.0
  {
    TotalIsDaysTimesPrices(booking);
    PriceSumNonNegative(booking.bookingRooms);
  }

  /**
   * Partial days are not charged: a stay shorter than a day costs nothing,
   * and a stay in the wrong order costs the negated price of the right one.
   */
  lemma PartialDaysDropped(booking: Booking)
    requires CalculateTotalPrice(booking).Some?
    ensures -TicksPerDay < booking.checkOutDate - booking.checkInDate < TicksPerDay ==>
      CalculateTotalPrice(booking) == Some(0.0)
    ensures CalculateTotalPrice(booking.(checkInDate := booking.checkOutDate, checkOutDate := booking.checkInDate)) ==
      Some(-CalculateTotalPrice(booking).value)
  {
    var swapped := booking.(checkInDate := booking.checkOutDate, checkOutDate := booking.checkInDate);
    TotalIsDaysTimesPrices(booking);
    TotalIsDaysTimesPrices(swapped);
    var days := NumberOfDays(booking);
    assert NumberOfDays(swapped) == -days;
    if -TicksPerDay < booking.checkOutDate - booking.checkInDate < TicksPerDay {
      assert days == 0;
    }
    assert CalculateTotalPrice(swapped).value == -CalculateTotalPrice(booking).value;
  }
}
