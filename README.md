# Hotel reservation: booking, listing and user-administration rules

A Dafny model of the rule logic inside three controllers of the hotel reservation web
application, run against an explicit in-memory store instead of the ORM and the web framework:

- **Booking** (`Areas/Customer/Controllers/BookingController.cs`): browsing the rooms of a
  category (`Filter`), counting the rooms free for a room type (`Book` GET), booking rooms
  (`Book` POST: exact type/price/meal-price match, all-or-nothing failure, price formula,
  usage-limited flat coupon, reservation record, rooms flipped to unavailable and linked), and
  the checkout line items `Pay` hands to the payment gateway.
- **Company hotel list** (`Areas/Company/Controllers/HotelsController.cs`, `Index`): company
  scoping, trimmed ignore-case search over name, address, city and the company's user name,
  count before paging, pages of 8.
- **Admin user management** (`Areas/Admin/Controllers/UserController.cs`): user search and
  pages of 10 (`Index`), the lockout toggle (`Lockout`), profile edit with single-role
  replacement (`Edit`) and `Delete`.

Files: `wrappers.dfy` (Option), `text.dfy` (Trim, ToLower, Contains), `paging.dfy`
(Skip/Take pages), `filtering.dfy` (Where: order and multiplicity), `booking.dfy`, `hotels.dfy`, `users.dfy`.

How the model is built:

- `Booking.BookSpec` is the booking as a function from store to (outcome, store);
  `Booking.BookingStore` holds the same tables as fields (the rooms table as an array whose
  rows are updated in place) and its `Book` method, with the in-place coupon step
  `SpendCoupon`, the final store update `Commit` and its room loop `TakeRooms`, is proved to produce exactly what `BookSpec`
  says. The properties of the booking are lemmas about `BookSpec`.
- The store invariant `StoreValid` (reservation ids increase and stay below the id counter,
  coupon discounts lie in [0, 99], each reservation has as many room links as rooms it booked)
  is kept by every booking.
- Room queries return rooms in store order; the first `RoomCount` of them are the ones booked.
- The database's identity column for reservations is a counter, `nextReservationId`.
- The coupon's `double Discount` is modelled as the integer `(int)coupon.Discount` the booking
  subtracts; the `[Range(0,99)]` annotation of `Models/Models/Coupon.cs` becomes part of the
  store invariant.
- The reservation's hotel comes from the booking form (`viewModel.HotelId`) while the room
  query uses the room-type form (`typeModel`); the model keeps the two apart as the code does.
- Identity-store calls (`SetLockoutEndDateAsync`, `UpdateAsync`, `RemoveFromRolesAsync`,
  `AddToRoleAsync`, `DeleteAsync`) are reduced to a success flag passed in; the current user is
  an `Option<string>` parameter; "now" is an integer clock in seconds passed in.
- In the hotel search, `c.company.UserName` is the user name of the signed-in company: the
  hotels are already scoped to that company, so their company navigation is that company.
- The checkout amount is `TotalPrice * 100`, the total in minor units (piastres).
- A failed `AddToRoleAsync` after a successful `RemoveFromRolesAsync` leaves the user with no
  role at all; `Users.UserDirectory.Edit` states this outcome as the code produces it.

## Model

| member | source | states |
|---|---|---|
| `Text.Trim` | HotelReservation/Areas/Company/Controllers/HotelsController.cs:49 | The trimmed term is a contiguous piece of the input with only white space around it, empty exactly when the input is blank, and starts and ends with a non-space character otherwise |
| `Text.Contains` | HotelReservation/Areas/Company/Controllers/HotelsController.cs:51-54 | Substring search answers true exactly when the needle occurs at some position of the haystack |
| `Text.ContainsIgnoreCaseOfLower` | HotelReservation/Areas/Company/Controllers/HotelsController.cs:51-54 | An ignore-case search gives the same answer for a term and its lower-cased form |
| `Text.TrimToLowerCommute` | HotelReservation/Areas/Admin/Controllers/UserController.cs:50 | Trimming and lower-casing the search term commute |
| `Paging.Page` | HotelReservation/Areas/Company/Controllers/HotelsController.cs:57-60 | A page holds at most pageSize items; element k of page p is element (p-1)*pageSize+k of the list, in order; a page past the end is empty, and otherwise holds min(pageSize, remaining) items |
| `Paging.FirstPagesArePrefix` | HotelReservation/Areas/Admin/Controllers/UserController.cs:59-62 | Pages 1..n laid end to end are exactly the first n*pageSize items of the list: no overlap, no gap |
| `Paging.ElementOnItsPage` | HotelReservation/Areas/Company/Controllers/HotelsController.cs:57-60 | Every item of the list appears on page i/pageSize+1 at position i%pageSize |
| `Filtering.WhereAppend` | HotelReservation/Areas/Company/Controllers/HotelsController.cs:45 | LINQ's Where distributes over concatenation, so it keeps the relative order of what it keeps |
| `Filtering.WhereCount` | HotelReservation/Areas/Company/Controllers/HotelsController.cs:45 | LINQ's Where keeps each accepted item once: its result is as long as the set of accepted positions |
| `Hotels.FindCompany` | HotelReservation/Areas/Company/Controllers/HotelsController.cs:38 | The company found has the signed-in user name; none is found exactly when no company has it |
| `Hotels.CompanyHotels` | HotelReservation/Areas/Company/Controllers/HotelsController.cs:45 | A hotel is listed exactly when it belongs to the company |
| `Hotels.CompanyHotelsKeepsOrder` | HotelReservation/Areas/Company/Controllers/HotelsController.cs:45 | The company filter keeps list order: filtering a concatenation is the concatenation of the filtered halves, and a single hotel is kept exactly when it is the company's |
| `Hotels.CompanyHotelsCount` | HotelReservation/Areas/Company/Controllers/HotelsController.cs:45 | Each of the company's hotels is listed once: the result is as long as the number of positions holding one of its hotels |
| `Hotels.SearchHotels` | HotelReservation/Areas/Company/Controllers/HotelsController.cs:50-54 | A hotel is kept exactly when the term occurs, ignoring case, in its name, address, city or the company user name |
| `Hotels.SearchHotelsKeepsOrder` | HotelReservation/Areas/Company/Controllers/HotelsController.cs:50-54 | The search keeps list order: searching a concatenation is the concatenation of the searched halves, and a single hotel is kept exactly when it matches |
| `Hotels.SearchHotelsCount` | HotelReservation/Areas/Company/Controllers/HotelsController.cs:50-54 | Each matching hotel is kept once: the result is as long as the number of positions holding a matching hotel |
| `Hotels.Index` | HotelReservation/Areas/Company/Controllers/HotelsController.cs:27-72 | No or empty user name redirects home; no company redirects to not-found; otherwise the total is the filtered count before paging, and the page is exactly `Page(filtered, p, 8)`: the slice of the filtered list at (p-1)*8, min(8, remaining) long, all of the caller's company |
| `Hotels.BlankSearchListsAll` | HotelReservation/Areas/Company/Controllers/HotelsController.cs:47 | A missing or white-space-only search applies no filter |
| `Hotels.SearchKeepsMatching` | HotelReservation/Areas/Company/Controllers/HotelsController.cs:47-55 | With a non-blank search, a hotel is listed exactly when it is the company's and the trimmed term occurs in one of its fields, ignoring case |
| `Hotels.OwnNameKeepsAll` | HotelReservation/Areas/Company/Controllers/HotelsController.cs:54 | A term found in the company's own user name keeps every hotel |
| `Hotels.SearchIgnoresTermCase` | HotelReservation/Areas/Company/Controllers/HotelsController.cs:51-54 | The search result does not depend on the letter case of the term |
| `Users.SearchUsers` | HotelReservation/Areas/Admin/Controllers/UserController.cs:51-56 | A user is kept exactly when the term occurs in the lower-cased user name, e-mail, phone number (when present) or a role name |
| `Users.SearchUsersKeepsOrder` | HotelReservation/Areas/Admin/Controllers/UserController.cs:51-56 | The user search keeps list order: searching a concatenation is the concatenation of the searched halves, and a single user is kept exactly when it matches |
| `Users.SearchUsersCount` | HotelReservation/Areas/Admin/Controllers/UserController.cs:51-56 | Each matching user is kept once: the result is as long as the number of positions holding a matching user |
| `Users.SearchTerm` | HotelReservation/Areas/Admin/Controllers/UserController.cs:48-50 | A missing or blank search gives no term (no filtering); any other search gives a lower-case term that is the lower-cased text with only white space cut from its ends and none left at either end |
| `Users.Index` | HotelReservation/Areas/Admin/Controllers/UserController.cs:33-70 | The total is the filtered count; the page is exactly `Page(filtered, p, 10)`: the slice of the filtered list at (p-1)*10, min(10, remaining) long, in order, all drawn from the listed users |
| `Users.SearchKeepsMatching` | HotelReservation/Areas/Admin/Controllers/UserController.cs:48-57 | With a non-blank search, a user is listed exactly when it is among the users and the trimmed, lower-cased text occurs in its lower-cased user name, e-mail, phone (when present) or a role name |
| `Users.SearchIgnoresCase` | HotelReservation/Areas/Admin/Controllers/UserController.cs:48-57 | Searches that differ only in letter case list the same users |
| `Users.TermIgnoresCase` | HotelReservation/Areas/Admin/Controllers/UserController.cs:48-50 | Search texts that differ only in letter case give the same trimmed, lower-cased term |
| `Users.RoleSearchFinds` | HotelReservation/Areas/Admin/Controllers/UserController.cs:55 | A term found in one of a user's role names lists that user |
| `Users.ToggledLockout` | HotelReservation/Areas/Admin/Controllers/UserController.cs:78-95 | The toggle flips locked-out state at "now": a locked user's end becomes now minus one minute, any other user's now plus a hundred years; nothing else changes |
| `Users.ToggleTwice` | HotelReservation/Areas/Admin/Controllers/UserController.cs:78-105 | Toggling twice at the same instant restores the locked-out state |
| `Users.LockHolds` | HotelReservation/Areas/Admin/Controllers/UserController.cs:95 | A freshly locked user stays locked out for a hundred years |
| `Users.WithProfile` | HotelReservation/Areas/Admin/Controllers/UserController.cs:146-149 | Edit copies e-mail, phone and city, sets the user name to the e-mail, and keeps id, lockout and roles |
| `Users.UserDirectory.Lockout` | HotelReservation/Areas/Admin/Controllers/UserController.cs:73-109 | Unknown id: not-found and no change; known id: back to the list, and the user's lockout is toggled when the store accepts it, otherwise nothing changes |
| `Users.UserDirectory.Edit` | HotelReservation/Areas/Admin/Controllers/UserController.cs:131-182 | Unknown id: not-found, no change; failed update: form again, no change; failed role removal: profile saved, roles kept, not-found; failed add: profile saved, no roles, not-found; success: profile saved and roles exactly {role}; no other user changes |
| `Users.UserDirectory.Delete` | HotelReservation/Areas/Admin/Controllers/UserController.cs:183-199 | Unknown id or failed delete: not-found and no change; otherwise the user is removed and the admin returns to the list |
| `Booking.Filter` | HotelReservation/Areas/Customer/Controllers/BookingController.cs:39-48 | A room is listed exactly when it is in the hotel and its type has the category, booked or not |
| `Booking.FilterIgnoresAvailability` | HotelReservation/Areas/Customer/Controllers/BookingController.cs:41-43 | Changing availability flags changes Filter's answer only in those flags |
| `Booking.AvailableIndices` | HotelReservation/Areas/Customer/Controllers/BookingController.cs:83-90 | The room query returns, in store order and without repeats, exactly the rooms of the hotel that are free and whose type equals the requested category, price per night and meal price (both absent counting as equal) |
| `Booking.AvailableCountIsMatchCount` | HotelReservation/Areas/Customer/Controllers/BookingController.cs:57-64 | The query's length equals the number of matching free rooms |
| `Booking.AvailableRooms` | HotelReservation/Areas/Customer/Controllers/BookingController.cs:52-72 | Unknown hotel: not found; otherwise the count is the number of rooms matching hotel, availability, category, price and meal price |
| `Booking.RedeemCoupon` | HotelReservation/Areas/Customer/Controllers/BookingController.cs:105-119 | No or empty code skips the coupon; an unknown code or one with no uses left rejects; otherwise the discount is the coupon's and its limit drops by exactly one, other coupons unchanged |
| `Booking.BookSpec` | HotelReservation/Areas/Customer/Controllers/BookingController.cs:76-154 | Not signed in redirects to login; fewer matching rooms than asked fails; a bad coupon fails; every failure leaves the whole store unchanged; success returns the new reservation's id |
| `Booking.Picked` | HotelReservation/Areas/Customer/Controllers/BookingController.cs:136-138 | The rooms a booking takes are RoomCount distinct matching rooms in store order, and no matching room before the last one taken is skipped: the first RoomCount matches |
| `Booking.BookedReservation` | HotelReservation/Areas/Customer/Controllers/BookingController.cs:97-134 | The stored reservation has the form's hotel, counts and dates, no children when none given, the caller's id, the RoomCount, and total PricePN*RoomCount plus MealPrice*RoomCount when a meal is asked for and priced, less the coupon discount |
| `Booking.BookedCoupons` | HotelReservation/Areas/Customer/Controllers/BookingController.cs:105-113 | With a code, the coupon existed with uses left and loses exactly one use; without one, no coupon changes |
| `Booking.BookedRooms` | HotelReservation/Areas/Customer/Controllers/BookingController.cs:136-150 | Exactly the first RoomCount matching rooms become unavailable, all other rooms are unchanged, and each taken room gets one link to the new reservation, in order |
| `Booking.BookPreservesValid` | HotelReservation/Areas/Customer/Controllers/BookingController.cs:133-150 | A booking keeps the store invariant: increasing reservation ids, and as many room links per reservation as rooms it booked |
| `Booking.AddReservationKeepsValid` | HotelReservation/Areas/Customer/Controllers/BookingController.cs:133-150 | Appending a reservation under the counter's id with one new link per booked room, all pointing to it, keeps the store invariant |
| `Booking.BookingTakesRoomCountRooms` | HotelReservation/Areas/Customer/Controllers/BookingController.cs:136-147 | After a booking there are exactly RoomCount fewer rooms available for the booked type |
| `Booking.BookingOnlyClearsFlags` | HotelReservation/Areas/Customer/Controllers/BookingController.cs:144 | A booking changes rooms only by clearing availability: no room becomes bookable for any query |
| `Booking.CouponUsedUp` | HotelReservation/Areas/Customer/Controllers/BookingController.cs:108-111 | A coupon with one use left admits one booking; the next booking with the same code does not succeed |
| `Booking.ThreeRoomsBookTwo` | HotelReservation/Areas/Customer/Controllers/BookingController.cs:83-147 | Three free rooms at 100: booking two costs 200 and takes the first two; a following request for four fails for lack of rooms |
| `Booking.BookingStore.Book` | HotelReservation/Areas/Customer/Controllers/BookingController.cs:76-154 | The in-place booking keeps the store invariant and yields exactly the outcome and store of BookSpec |
| `Booking.BookingStore.SpendCoupon` | HotelReservation/Areas/Customer/Controllers/BookingController.cs:105-119 | The in-place coupon step agrees with RedeemCoupon and changes the coupons only on redemption |
| `Booking.BookingStore.Commit` | HotelReservation/Areas/Customer/Controllers/BookingController.cs:133-150 | Storing the reservation and taking the rooms appends the reservation, advances the id counter, marks exactly the picked rooms unavailable and appends their links |
| `Booking.BookingStore.TakeRooms` | HotelReservation/Areas/Customer/Controllers/BookingController.cs:136-150 | The loop marks exactly the picked rooms unavailable and appends one link per picked room, in order |
| `Booking.CheckoutItems` | HotelReservation/Areas/Customer/Controllers/BookingController.cs:159-188 | Every item has quantity 1 and currency "egp"; every reservation of the user with the requested id gets an item |
| `Booking.CheckoutItemsCharged` | HotelReservation/Areas/Customer/Controllers/BookingController.cs:172-186 | Every item charges a reservation of the signed-in user with the requested id, at its total price times 100 |
| `Booking.CheckoutSingleItem` | HotelReservation/Areas/Customer/Controllers/BookingController.cs:159-162 | With unique reservation ids there is one item when the user has that reservation and none otherwise |
| `Booking.BuildLineItems` | HotelReservation/Areas/Customer/Controllers/BookingController.cs:172-188 | The loop that builds the line items produces exactly CheckoutItems |

## Left out

- The payment gateway: creating the hosted checkout session and redirecting to it
  (BookingController.cs:163-170, 190-193); `CheckOutSuccess` and `CancelCheckout` write nothing.
- Booking.CheckoutItems: the product name text "Hotel: <name>, Rooms: <n>" is not formatted; an
  item carries the reservation's hotel id and room count instead.
- Booking.BookSpec: requires RoomCount >= 1; with RoomCount <= 0 and no matching room the code
  throws at `First()` (BookingController.cs:97), an exception the model does not represent.
- Booking.BookSpec: with RoomCount <= 0 and at least one matching room the code does not throw:
  it stores a reservation of RoomCount rooms priced at most zero, spends the coupon and takes no
  room (BookingController.cs:97-147); the model does not cover this input.
- Hotels.Index: the offset `(pageNumber - 1) * pageSize` is 32-bit `int` arithmetic
  (HotelsController.cs:58), so the code skips that product wrapped into the signed 32-bit range.
  A negative offset skips nothing and shows page 1; a wrapped offset that falls inside the list
  shows that slice. The model, with unbounded integers, gives an empty page in both cases. The
  wrap cycles: the offset is negative for pageNumber 268435457..536870912, 536870913 gives
  offset 0 (page 1 again), and the pattern repeats every 536870912 pages.
- Users.Index: the same wrap-around (UserController.cs:60) with pageSize 10: the offset is
  negative for pageNumber 214748366..429496730 (page 1 is shown), 429496731 gives offset 4 (the
  slice from the fifth user), and so on; the model gives an empty page for all of these.
- Users.SearchUsers: user names and e-mails are non-null strings; a null `UserName` or `Email`
  makes the search throw (UserController.cs:52-53), which the model does not represent.
- Hotels.SearchHotels: hotel names, addresses and cities are non-null strings; a null one makes
  the search throw into the not-found redirect (HotelsController.cs:51-54, 68-71), which the
  model does not represent.
- Booking.BookSpec: prices are unbounded integers; the 32-bit wrap-around of `int` arithmetic
  in the reservation total is not modelled.
- Booking.CheckoutItems: the amount `TotalPrice * 100` is an unbounded integer; its 32-bit
  wrap-around is not modelled.
- Booking.BookingStore.Book: form validation (`ModelState`, BookingController.cs:78) and the
  view and message plumbing (TempData, ViewBag) are not modelled.
- Coupon expiry: `ExpireDate` is never checked by the code, so there is no expiry rule.
- Concurrency: each call is one sequential step; the check-then-reserve race between requests
  and the separate database commits (BookingController.cs:134, 149-150) are not modelled.
- Room query order: rooms come back in store order; an SQL query without ORDER BY gives no
  such guarantee.
- Hotels.Index: requires pageNumber >= 1; the exception handler that turns any failure into a
  not-found redirect (HotelsController.cs:68-71) has no failure to catch in the model.
- Users.Index: requires pageNumber >= 1.
- Text.Trim: white space is ASCII only; Unicode spaces that `char.IsWhiteSpace` accepts are not.
- Text.Contains: case folding (`ToLower`, `OrdinalIgnoreCase`) covers the ASCII letters only.
- Users.ToggledLockout: one integer clock replaces `DateTime.Now` and `DateTimeOffset.UtcNow`,
  and `AddYears(100)` is a fixed 36524 days.
- Users.UserDirectory.Edit: the profile-image upload (UserController.cs:143), the identity
  store's normalised names and security stamp, and exceptions other than a failed step are not
  modelled; the edit form display (UserController.cs:113-126) only reads.
- The admin action log (UserController.cs:200-204) and error messages added to the form.
- The other HotelsController actions (details, create, edit, delete, image lists) are image and
  file-storage plumbing and are not part of this model; neither is the account-management page
  of the identity area.
