# ShareIt booking and item core, modelled in Dafny

ShareIt is a peer-to-peer sharing service. Users list items. Other users book
an item for a time window, and the owner approves or rejects each booking.
Users can also post requests for items they want, and comment on items they
have booked.

The repository holds two versions of the service:

- `server/` is the later one, over JPA tables, with paged lists.
- `src/` is the earlier one. Part of it runs over JPA tables and part over
  in-memory repositories.

This project models the core of both versions side by side, each as written:

- the booking lifecycle: create, decide (approve or reject), read, and the
  state-filtered lists for a booker or an owner;
- the booking queries behind those lists, and the "last" and "next" bookings
  shown on an item;
- the item services: their checks, the merge of an item patch, item views,
  comments and text search;
- the in-memory item and user repositories, with their invariants;
- the user services, with the merge of a user patch;
- the item request service, which groups requests with the items that answer
  them.

How the model is laid out:

- Entities are datatypes (`Domain`).
- A JPA table is a `map` from id to row plus its identity counter (`Table`).
  A query without ORDER BY returns rows in id order.
- A service that writes to a table is a class whose methods change that map.
- Checks and queries are functions that return `Result` or `Outcome`. Each
  exception the source throws is a `Failure`/`Fail` value. A
  NullPointerException the code can run into is `NullReference`.
- The clock is the parameter `now`. Paging is `Page(s, from, size)`, which
  reads `size` rows from row `(from / size) * size`.

Points where the code behaves in a way a reader might not expect. The model
follows the code in each:

- **Last and next bookings.** An item is shown with a "last" and a "next"
  booking, and the server computes them on two paths: single-item queries for
  `getById`, bulk queries for the owner's list. The two paths do not agree.
  - The server's single-item queries take any status. Both order by end
    ascending (`ServerBookingRepository.FindFirstStartedByEarliestEnd`,
    `FindFirstUpcomingByEarliestEnd`).
  - The bulk queries filter APPROVED and order "last" by end descending.
  - `ServerBookingRepository.SingleAndBulkLastDiffer` exhibits two bookings
    on which the two paths disagree.
  - The src queries take any status. They pick the greatest end (last) and
    the greatest start (next).
- **Time states.** CURRENT is `start < now < end`, with both bounds strict, as
  the derived `StartBefore…EndAfter` queries are. A booking that starts or ends
  exactly at `now` is in no time state (`BookingQueries.TimeStatesPartition`).
- **Booking window.** The server's `create` does not check that the booking
  ends after it starts (`ServerBookingService.CreateIgnoresWindow`). The src
  `create` refuses only an end before the start; an end equal to the start is
  accepted.
- **Item description patch.** The item merge tests the *current* description
  for blankness, not the new one. So a blank description can be written
  (`ItemViews.BlankDescriptionOverwrites`). An item whose description is blank
  can never change it (`ItemViews.BlankDescriptionIsKept`).

## Model

| member | source | states |
|---|---|---|
| `StateConverter.ValueOf` | src/main/java/ru/practicum/shareit/util/StringToStateConverter.java:12-18 | finds the constant whose name is exactly the string; None only when no constant has that name |
| `StateConverter.ConvertName` | src/main/java/ru/practicum/shareit/util/StringToStateConverter.java:12-18 | every constant's own name converts back to that constant |
| `StateConverter.ConvertIgnoresCase` | src/main/java/ru/practicum/shareit/util/StringToStateConverter.java:12-18 | a string, its upper-case form and its lower-case form convert to the same state |
| `StateConverter.ConvertLowerName` | src/main/java/ru/practicum/shareit/util/StringToStateConverter.java:12-18 | a lower-cased constant name still converts to that constant |
| `StateConverter.ConvertUnknown` | src/main/java/ru/practicum/shareit/util/StringToStateConverter.java:12-18 | a string whose upper-case form names no constant falls back to UNSUPPORTED_STATUS |
| `StateConverter.ConvertStable` | src/main/java/ru/practicum/shareit/util/StringToStateConverter.java:12-18 | converting the name of a conversion's result gives that result again |
| `StateConverter.ConvertUnsupportedExactly` | src/main/java/ru/practicum/shareit/util/StringToStateConverter.java:12-18 | the result is UNSUPPORTED_STATUS exactly when the upper-cased string is that name or names no constant |
| `BookingConverter.ToOutputDto` | src/main/java/ru/practicum/shareit/booking/dto/BookingDtoConverterImpl.java:16-21 | the output keeps id, start, end and status; item and booker keep only id and name |
| `BookingConverter.FromInputDto` | src/main/java/ru/practicum/shareit/booking/dto/BookingDtoConverterImpl.java:24-27 | a new booking has no id, is WAITING, takes the request's times, and has the given item and booker |
| `BookingConverter.ToDtoOnlyIdAndBookerId` | src/main/java/ru/practicum/shareit/booking/dto/BookingDtoConverterImpl.java:30-32 | the short form keeps the booking id and the booker's id |
| `BookingConverter.ShortAgreesWithOutput` | src/main/java/ru/practicum/shareit/booking/dto/BookingDtoConverterImpl.java:16-32 | the short form and the full output agree on booking id and booker id |
| `BookingConverter.OutputOfNewBooking` | src/main/java/ru/practicum/shareit/booking/dto/BookingDtoConverterImpl.java:16-27 | the output of a booking made from a request echoes the request's times and is WAITING, with no id |
| `BookingConverter.OutputDeterminesProjectedFields` | src/main/java/ru/practicum/shareit/booking/dto/BookingDtoConverterImpl.java:16-21 | two bookings with equal outputs agree on id, times, status, item id and booker id |
| `BookingQueries.StateSemantics` | server/src/main/java/ru/practicum/shareit/booking/service/BookingServiceImpl.java:109-147 | each state keyword selects: ALL everything; CURRENT `start < t < end`; PAST `end < t`; FUTURE `start > t`; WAITING and REJECTED by status; UNSUPPORTED_STATUS has no query |
| `BookingQueries.TimeStatesPartition` | server/src/main/java/ru/practicum/shareit/booking/service/BookingServiceImpl.java:120-131 | for a booking with start ≤ end, CURRENT, PAST and FUTURE are pairwise disjoint; off the boundaries exactly one holds, and on a boundary none does |
| `BookingQueries.PastAndFutureOverlapForReversedBooking` | server/src/main/java/ru/practicum/shareit/booking/service/BookingServiceImpl.java:38-60 | a booking that ends before it starts, which `create` accepts, is both PAST and FUTURE |
| `BookingQueries.Matching` | src/main/java/ru/practicum/shareit/booking/repository/BookingRepository.java:16-36 | exactly the rows of the booker or owner that the query selects, as a permutation of them, sorted by start descending |
| `ServerBookingRepository.FindBookings` | server/src/main/java/ru/practicum/shareit/booking/repository/BookingRepository.java:17-41 | at most `size` rows, all of the subject and selected by the query, start descending, and exactly page `from / size` of all matching rows |
| `ServerBookingRepository.FindFinishedBookings` | server/src/main/java/ru/practicum/shareit/booking/repository/BookingRepository.java:43-44 | exactly the user's bookings of the item with end ≤ t |
| `ServerBookingRepository.FindFirstStartedByEarliestEnd` | server/src/main/java/ru/practicum/shareit/booking/repository/BookingRepository.java:46 | empty iff no booking of the item has started by t; otherwise a started booking of the item, of any status, whose end is the least |
| `ServerBookingRepository.FindFirstUpcomingByEarliestEnd` | server/src/main/java/ru/practicum/shareit/booking/repository/BookingRepository.java:48 | empty iff no booking of the item starts after t; otherwise an upcoming booking of the item whose end is the least |
| `ServerBookingRepository.FindBulkLast` | server/src/main/java/ru/practicum/shareit/booking/repository/BookingRepository.java:50-52 | exactly the APPROVED bookings of the listed items with start ≤ t, end descending |
| `ServerBookingRepository.FindBulkNext` | server/src/main/java/ru/practicum/shareit/booking/repository/BookingRepository.java:54-56 | exactly the APPROVED bookings of the listed items with start > t, end ascending |
| `ServerBookingRepository.SingleAndBulkLastDiffer` | server/src/main/java/ru/practicum/shareit/booking/repository/BookingRepository.java:46-52 | two approved bookings of one item on which the single-item "last" query and the head of the bulk one return different bookings |
| `SrcBookingRepository.FindBookings` | src/main/java/ru/practicum/shareit/booking/repository/BookingRepository.java:16-36 | every row of the subject that the query selects, as a permutation of them, start descending |
| `SrcBookingRepository.FindFinishedBookings` | src/main/java/ru/practicum/shareit/booking/repository/BookingRepository.java:38 | exactly the user's bookings of the item with end strictly before t |
| `SrcBookingRepository.FindLastBooking` | src/main/java/ru/practicum/shareit/booking/repository/BookingRepository.java:40-42 | empty iff no booking of the item started before now; otherwise such a booking with the greatest end |
| `SrcBookingRepository.FindNextBooking` | src/main/java/ru/practicum/shareit/booking/repository/BookingRepository.java:44-46 | empty iff no booking of the item starts after now; otherwise such a booking with the greatest start |
| `ServerBookingService.CreateCheck` | server/src/main/java/ru/practicum/shareit/booking/service/BookingServiceImpl.java:38-60 | succeeds iff the user and item exist, the user does not own the item and it is available; the failures come in that order (user, item, owner, availability); success is a new WAITING booking of that item by that user |
| `ServerBookingService.Target` | server/src/main/java/ru/practicum/shareit/booking/service/BookingServiceImpl.java:77-82 | approval sets APPROVED, refusal REJECTED, both directions |
| `ServerBookingService.Decide` | server/src/main/java/ru/practicum/shareit/booking/service/BookingServiceImpl.java:64-89 | succeeds iff the booking and user exist, the user owns the item and the status differs from the target; errors in that order; success changes only the status |
| `ServerBookingService.GetById` | server/src/main/java/ru/practicum/shareit/booking/service/BookingServiceImpl.java:92-106 | booking not found, then user not found, then Access unless the user is the booker or the item's owner; success is the booking's output (the src `getById`, src/main/java/ru/practicum/shareit/booking/service/BookingServiceImpl.java:95-109, is the same) |
| `ServerBookingService.GetAll` | server/src/main/java/ru/practicum/shareit/booking/service/BookingServiceImpl.java:109-188 | NotFound for an absent user, UnknownState for an unsupported state; otherwise at most `size` outputs, each of a booking of the subject in the state, start descending; exactly the outputs of page `from / size` of `ServerBookingRepository.FindBookings` |
| `ServerBookingService.BookingService.Create` | server/src/main/java/ru/practicum/shareit/booking/service/BookingServiceImpl.java:38-60 | a failed check changes nothing; otherwise the booking is stored under the next id and appended to the table |
| `ServerBookingService.BookingService.UpdateStatus` | server/src/main/java/ru/practicum/shareit/booking/service/BookingServiceImpl.java:64-89 | a failed decision changes nothing; otherwise only that booking's status changes |
| `ServerBookingService.CreateIgnoresWindow` | server/src/main/java/ru/practicum/shareit/booking/service/BookingServiceImpl.java:38-60 | whether `create` succeeds does not depend on the start and end instants |
| `ServerBookingService.DecideTwiceFails` | server/src/main/java/ru/practicum/shareit/booking/service/BookingServiceImpl.java:83-85 | repeating an accepted decision fails with "Same status" |
| `ServerBookingService.ApproveThenReject` | server/src/main/java/ru/practicum/shareit/booking/service/BookingServiceImpl.java:64-89 | after an approval the owner can still reject, and the booking ends up REJECTED |
| `ServerBookingService.DecisionIsVisible` | server/src/main/java/ru/practicum/shareit/booking/service/BookingServiceImpl.java:92-106 | after an accepted decision the owner reads the booking back with the new status |
| `SrcBookingService.CreateCheck` | src/main/java/ru/practicum/shareit/booking/service/BookingServiceImpl.java:37-62 | fails with Time iff the end is before the start; otherwise it is the server's check; succeeds iff start ≤ end and the server's conditions hold |
| `SrcBookingService.GetAll` | src/main/java/ru/practicum/shareit/booking/service/BookingServiceImpl.java:112-189 | NotFound, then UnknownState; otherwise the outputs of exactly the bookings of the subject in the state, each selected booking once (a multiset equal to the selection), start descending |
| `SrcBookingService.BookingService.Create` | src/main/java/ru/practicum/shareit/booking/service/BookingServiceImpl.java:37-62 | a failed check changes nothing; otherwise the booking is stored under the next id and appended to the table |
| `SrcBookingService.BookingService.UpdateStatusOfBooking` | src/main/java/ru/practicum/shareit/booking/service/BookingServiceImpl.java:66-92 | the same decision as the server's: failure changes nothing, success changes only the status |
| `SrcBookingService.CreatedIsListed` | src/main/java/ru/practicum/shareit/booking/service/BookingServiceImpl.java:112-149 | a newly stored booking appears in its booker's ALL list |
| `SrcItemRepository.FindByText` | src/main/java/ru/practicum/shareit/item/repository/ItemRepository.java:12-16 | exactly the rows whose upper-cased name contains the upper-cased text, or whose description does and which are available (AND binds tighter than OR) |
| `SrcItemRepository.FindAllByOwnerOrderByIdAsc` | src/main/java/ru/practicum/shareit/item/repository/ItemRepository.java:18 | exactly the owner's items, in strictly ascending id order |
| `SrcItemRepository.FindByTextIgnoresCase` | src/main/java/ru/practicum/shareit/item/repository/ItemRepository.java:12-16 | searching for the text, its lower-case form or its upper-case form finds the same items |
| `SrcItemRepository.AvailabilityOnlyGuardsDescription` | src/main/java/ru/practicum/shareit/item/repository/ItemRepository.java:12-16 | an unavailable item is found iff its name matches |
| `ItemViews.Merge` | server/src/main/java/ru/practicum/shareit/item/service/ItemServiceImpl.java:179-190 | id, owner and request are kept; a present non-blank name replaces the name; a present description replaces it only while the current one is non-blank; a present flag replaces availability (src/main/java/ru/practicum/shareit/item/service/ItemServiceImpl.java:147-159 is the same) |
| `ItemViews.MergeOfNothing` | server/src/main/java/ru/practicum/shareit/item/service/ItemServiceImpl.java:179-190 | a patch of nulls leaves the item unchanged |
| `ItemViews.MergeIdempotent` | server/src/main/java/ru/practicum/shareit/item/service/ItemServiceImpl.java:179-190 | applying a patch twice is applying it once |
| `ItemViews.BlankDescriptionOverwrites` | server/src/main/java/ru/practicum/shareit/item/service/ItemServiceImpl.java:183-185 | a blank new description replaces a non-blank one, while a blank new name is ignored |
| `ItemViews.BlankDescriptionIsKept` | server/src/main/java/ru/practicum/shareit/item/service/ItemServiceImpl.java:183-185 | an item with a blank description keeps it under any patch |
| `ItemViews.FirstFor` | server/src/main/java/ru/practicum/shareit/item/service/ItemServiceImpl.java:228-242 | empty iff the list has no booking of the item; otherwise the earliest of them in the list |
| `ItemViews.ShortOf` | server/src/main/java/ru/practicum/shareit/item/service/ItemServiceImpl.java:196-199 | an absent booking stays null; a present one keeps its id and booker id |
| `ServerItemService.CreateCheck` | server/src/main/java/ru/practicum/shareit/item/service/ItemServiceImpl.java:99-118 | passes iff the owner exists and a named request exists; NotFound for the user first, then for the request |
| `ServerItemService.UpdateCheck` | server/src/main/java/ru/practicum/shareit/item/service/ItemServiceImpl.java:122-137 | passes iff the user and item exist and the user owns the item; a non-owner gets NotFound too |
| `ServerItemService.DeleteCheck` | server/src/main/java/ru/practicum/shareit/item/service/ItemServiceImpl.java:140-149 | passes iff the user and the item exist |
| `ServerItemService.CommentCheck` | server/src/main/java/ru/practicum/shareit/item/service/ItemServiceImpl.java:158-177 | passes iff user and item exist and the user has a booking of the item, of any status, with end ≤ now; otherwise NotFound, then CommentAccess |
| `ServerItemService.OwnerLast` | server/src/main/java/ru/practicum/shareit/item/service/ItemServiceImpl.java:195-199 | null for anyone but the owner; for the owner, the short form of a started booking of the item with the least end |
| `ServerItemService.OwnerNext` | server/src/main/java/ru/practicum/shareit/item/service/ItemServiceImpl.java:201-204 | null for anyone but the owner; for the owner, the short form of an upcoming booking of the item with the least end |
| `ServerItemService.View` | server/src/main/java/ru/practicum/shareit/item/service/ItemServiceImpl.java:192-210 | the item's fields, the last and next bookings the caller may see, and exactly the item's comments |
| `ServerItemService.GetById` | server/src/main/java/ru/practicum/shareit/item/service/ItemServiceImpl.java:77-87 | NotFound for the user, then for the item; otherwise the item's view for the caller |
| `ServerItemService.IdsOf` | server/src/main/java/ru/practicum/shareit/item/service/ItemServiceImpl.java:57 | exactly the ids of the page's items |
| `ServerItemService.FillOne` | server/src/main/java/ru/practicum/shareit/item/service/ItemServiceImpl.java:212-248 | fails with NullReference iff the page has comments and none is on this item; comments are null iff the page has none; last and next are the item's first bookings in the two bulk lists |
| `ServerItemService.Fill` | server/src/main/java/ru/practicum/shareit/item/service/ItemServiceImpl.java:212-248 | succeeds iff every item of the page fills; then one view per item, in page order, each that item's fill |
| `ServerItemService.FilledLastIsLatestApproved` | server/src/main/java/ru/practicum/shareit/item/service/ItemServiceImpl.java:62-63 | in a listed item, "last" is null iff no approved booking of it has started, otherwise such a booking with the greatest end |
| `ServerItemService.FilledNextIsEarliestApproved` | server/src/main/java/ru/practicum/shareit/item/service/ItemServiceImpl.java:66-67 | in a listed item, "next" is null iff no approved booking of it is upcoming, otherwise such a booking with the least end |
| `ServerItemService.OwnedPage` | server/src/main/java/ru/practicum/shareit/item/service/ItemServiceImpl.java:54-55 | exactly page `from / size` of `SrcItemRepository.FindAllByOwnerOrderByIdAsc`: at most `size` of the owner's items, in ascending id order |
| `ServerItemService.PageComments` | server/src/main/java/ru/practicum/shareit/item/service/ItemServiceImpl.java:58-60 | exactly the comments on items of the page |
| `ServerItemService.ItemService.Create` | server/src/main/java/ru/practicum/shareit/item/service/ItemServiceImpl.java:99-118 | a failed check changes nothing; otherwise the item is stored under the next id, owned by the caller |
| `ServerItemService.ItemService.Update` | server/src/main/java/ru/practicum/shareit/item/service/ItemServiceImpl.java:122-137 | a failed check changes nothing; otherwise the stored item becomes its merge with the patch |
| `ServerItemService.ItemService.DeleteById` | server/src/main/java/ru/practicum/shareit/item/service/ItemServiceImpl.java:140-149 | the outcome is the delete check; on success only that item is removed |
| `ServerItemService.ItemService.DeleteAll` | server/src/main/java/ru/practicum/shareit/item/service/ItemServiceImpl.java:152-155 | the items table is emptied; the counter and comments stay |
| `ServerItemService.ItemService.CreateComment` | server/src/main/java/ru/practicum/shareit/item/service/ItemServiceImpl.java:158-177 | a failed check changes nothing; otherwise one comment stamped `now` is appended |
| `ServerItemService.ItemService.GetAll` | server/src/main/java/ru/practicum/shareit/item/service/ItemServiceImpl.java:48-73 | NotFound for an absent user; otherwise the fill of the owner's page (`OwnedPage`, the exact page) with its comments and the bulk last and next lists, one view per item in page order |
| `ServerItemService.DeleteIgnoresOwnership` | server/src/main/java/ru/practicum/shareit/item/service/ItemServiceImpl.java:140-149 | a user who may not update an item may still delete it |
| `ServerItemService.RejectedBookingAllowsComment` | server/src/main/java/ru/practicum/shareit/item/service/ItemServiceImpl.java:166-171 | a rejected booking that has ended still lets its booker comment |
| `SrcItemService.OwnerLast` | src/main/java/ru/practicum/shareit/item/service/ItemServiceImpl.java:164-167 | null for anyone but the owner; for the owner, a booking of the item started before now with the greatest end |
| `SrcItemService.OwnerNext` | src/main/java/ru/practicum/shareit/item/service/ItemServiceImpl.java:168-170 | null for anyone but the owner; for the owner, an upcoming booking of the item with the greatest start |
| `SrcItemService.View` | src/main/java/ru/practicum/shareit/item/service/ItemServiceImpl.java:161-176 | the item's fields and exactly the item's comments |
| `SrcItemService.GetById` | src/main/java/ru/practicum/shareit/item/service/ItemServiceImpl.java:60-70 | NotFound for the user, then for the item; otherwise the item's view for the caller |
| `SrcItemService.UpdateCheck` | src/main/java/ru/practicum/shareit/item/service/ItemServiceImpl.java:96-111 | passes iff the user and item exist and the user owns the item; a non-owner gets NotFound |
| `SrcItemService.CommentCheck` | src/main/java/ru/practicum/shareit/item/service/ItemServiceImpl.java:126-145 | passes iff user and item exist and the user has a booking of the item that ended strictly before now |
| `SrcItemService.GetByText` | src/main/java/ru/practicum/shareit/item/service/ItemServiceImpl.java:73-79 | exactly the stored items the text search matches |
| `SrcItemService.ViewAll` | src/main/java/ru/practicum/shareit/item/service/ItemServiceImpl.java:52-54 | one view per item, in list order, each the item's view for the caller |
| `SrcItemService.GetAll` | src/main/java/ru/practicum/shareit/item/service/ItemServiceImpl.java:44-57 | NotFound iff the user is absent; otherwise the views of the owner's items in ascending id order |
| `SrcItemService.ItemService.Update` | src/main/java/ru/practicum/shareit/item/service/ItemServiceImpl.java:96-111 | a failed check changes nothing; otherwise the stored item becomes its merge with the patch |
| `SrcItemService.ItemService.DeleteById` | src/main/java/ru/practicum/shareit/item/service/ItemServiceImpl.java:114-117 | no user or ownership check; an absent id fails with EmptyResult (Spring Data's EmptyResultDataAccessException) and changes nothing; otherwise the row is removed |
| `SrcItemService.ItemService.DeleteAll` | src/main/java/ru/practicum/shareit/item/service/ItemServiceImpl.java:120-123 | the items table is emptied; the counter and comments stay |
| `SrcItemService.ItemService.CreateComment` | src/main/java/ru/practicum/shareit/item/service/ItemServiceImpl.java:126-145 | a failed check changes nothing; otherwise one comment stamped `now` is appended |
| `SrcItemService.CommentBoundaryIsStrict` | src/main/java/ru/practicum/shareit/item/service/ItemServiceImpl.java:135-139 | a booking that ends exactly at `now` does not let its booker comment |
| `SrcItemService.NextIsTheLatestUpcoming` | src/main/java/ru/practicum/shareit/booking/repository/BookingRepository.java:44-46 | of two upcoming bookings, the owner is shown the one that starts later |
| `InMemoryItems.InMemoryItemRepository.FindById` | src/main/java/ru/practicum/shareit/item/repository/InMemoryItemRepository.java:16-19 | the stored item, or empty iff the id is absent |
| `InMemoryItems.InMemoryItemRepository.FindAll` | src/main/java/ru/practicum/shareit/item/repository/InMemoryItemRepository.java:21-31 | NullReference iff the sharer has no index entry and some item is stored; with no stored item the list is empty; otherwise exactly the sharer's stored items, each once |
| `InMemoryItems.InMemoryItemRepository.FindByText` | src/main/java/ru/practicum/shareit/item/repository/InMemoryItemRepository.java:33-44 | exactly the stored available items whose name or description contains the text ignoring case, each once |
| `InMemoryItems.InMemoryItemRepository.Save` | src/main/java/ru/practicum/shareit/item/repository/InMemoryItemRepository.java:46-57 | the item takes the counter as id and is indexed under its owner; the counter moves on; the invariant is kept |
| `InMemoryItems.InMemoryItemRepository.Update` | src/main/java/ru/practicum/shareit/item/repository/InMemoryItemRepository.java:59-71 | NotFound (item of user) unless indexed under its owner, then NotFound (item) unless stored; otherwise the item is replaced |
| `InMemoryItems.InMemoryItemRepository.DeleteById` | src/main/java/ru/practicum/shareit/item/repository/InMemoryItemRepository.java:73-76 | the item is removed from the map; the owner index keeps its id |
| `InMemoryItems.InMemoryItemRepository.DeleteAll` | src/main/java/ru/practicum/shareit/item/repository/InMemoryItemRepository.java:78-81 | the map is emptied; the owner index and the counter stay |
| `InMemoryItems.SearchesAgreeOnAvailableItems` | src/main/java/ru/practicum/shareit/item/repository/InMemoryItemRepository.java:33-44 | on available items the in-memory search and the JPA query agree; unavailable items are never found in memory |
| `InMemoryUsers.EmailsOf` | src/main/java/ru/practicum/shareit/user/repository/InMemoryUserRepositoryImpl.java:12-13 | exactly the e-mails of the stored users |
| `InMemoryUsers.EmailsOfAdd` | src/main/java/ru/practicum/shareit/user/repository/InMemoryUserRepositoryImpl.java:29-31 | storing a user under a new id adds its e-mail to the set |
| `InMemoryUsers.EmailsOfReplace` | src/main/java/ru/practicum/shareit/user/repository/InMemoryUserRepositoryImpl.java:39-46 | with unique e-mails, replacing a user swaps its old e-mail for the new one |
| `InMemoryUsers.EmailsOfRemove` | src/main/java/ru/practicum/shareit/user/repository/InMemoryUserRepositoryImpl.java:54-57 | with unique e-mails, removing a user removes exactly its e-mail |
| `InMemoryUsers.InMemoryUserRepository.FindById` | src/main/java/ru/practicum/shareit/user/repository/InMemoryUserRepositoryImpl.java:16-19 | the stored user, or empty iff the id is absent |
| `InMemoryUsers.InMemoryUserRepository.FindAll` | src/main/java/ru/practicum/shareit/user/repository/InMemoryUserRepositoryImpl.java:21-24 | exactly the stored users |
| `InMemoryUsers.InMemoryUserRepository.EmailCheckDuplicate` | src/main/java/ru/practicum/shareit/user/repository/InMemoryUserRepositoryImpl.java:69-73 | fails with ServerException iff the e-mail is registered |
| `InMemoryUsers.InMemoryUserRepository.Save` | src/main/java/ru/practicum/shareit/user/repository/InMemoryUserRepositoryImpl.java:26-33 | a registered e-mail changes nothing and fails; otherwise the user is stored under the counter, which moves on, and its e-mail is registered; e-mails stay unique |
| `InMemoryUsers.InMemoryUserRepository.Update` | src/main/java/ru/practicum/shareit/user/repository/InMemoryUserRepositoryImpl.java:36-51 | NotFound for an absent id; a changed e-mail must be unregistered and replaces the old one; success replaces the user; e-mails stay unique |
| `InMemoryUsers.InMemoryUserRepository.DeleteById` | src/main/java/ru/practicum/shareit/user/repository/InMemoryUserRepositoryImpl.java:53-57 | an absent id throws (NullReference) and changes nothing; otherwise the user and its e-mail go |
| `InMemoryUsers.InMemoryUserRepository.DeleteAll` | src/main/java/ru/practicum/shareit/user/repository/InMemoryUserRepositoryImpl.java:59-63 | users and e-mails are emptied; the counter stays |
| `UserMerge.MergeUser` | server/src/main/java/ru/practicum/shareit/user/service/UserServiceImpl.java:75-83 | the id is kept; name and e-mail are each either kept or the patch's present, non-blank value (src/main/java/ru/practicum/shareit/user/service/UserServiceImpl.java:75-81 is the same rule) |
| `UserMerge.MergeUserFields` | server/src/main/java/ru/practicum/shareit/user/service/UserServiceImpl.java:76-81 | a present non-blank field always replaces the user's; an absent or blank one never does |
| `UserMerge.MergeUserOfNothing` | server/src/main/java/ru/practicum/shareit/user/service/UserServiceImpl.java:75-83 | a patch of nulls or blanks leaves the user unchanged |
| `UserMerge.MergeUserIdempotent` | server/src/main/java/ru/practicum/shareit/user/service/UserServiceImpl.java:75-83 | applying a patch twice is applying it once |
| `ServerUserService.UserService.GetAll` | server/src/main/java/ru/practicum/shareit/user/service/UserServiceImpl.java:24-32 | every stored user exactly once |
| `ServerUserService.UserService.GetById` | server/src/main/java/ru/practicum/shareit/user/service/UserServiceImpl.java:34-41 | the stored user, or NotFound iff absent |
| `ServerUserService.UserService.Create` | server/src/main/java/ru/practicum/shareit/user/service/UserServiceImpl.java:43-49 | the user is stored under the next id and appended to the list |
| `ServerUserService.UserService.Update` | server/src/main/java/ru/practicum/shareit/user/service/UserServiceImpl.java:51-60 | NotFound for an absent id, changing nothing; otherwise the stored user becomes its merge with the patch and keeps the path id; a patch of nulls changes nothing |
| `ServerUserService.UserService.DeleteById` | server/src/main/java/ru/practicum/shareit/user/service/UserServiceImpl.java:62-67 | an absent id fails with EmptyResult (Spring Data's EmptyResultDataAccessException) and changes nothing; otherwise the row is removed |
| `ServerUserService.UserService.DeleteAll` | server/src/main/java/ru/practicum/shareit/user/service/UserServiceImpl.java:69-73 | every row is removed; the counter stays |
| `SrcUserService.UpdateAsWritten` | src/main/java/ru/practicum/shareit/user/service/UserServiceImpl.java:52-84 | `update` as written: the stored user takes the merge; when `save` refuses the e-mail the merge stays in the map; when `save` accepts it the user also appears under a new id |
| `SrcUserService.UpdateAsWrittenRefusesEmptyPatch` | src/main/java/ru/practicum/shareit/user/service/UserServiceImpl.java:75-84 | as written, a patch of nulls on a stored user fails with ServerException |
| `SrcUserService.UpdateAsWrittenDuplicatesUser` | src/main/java/ru/practicum/shareit/user/service/UserServiceImpl.java:75-84 | as written, a new e-mail gives the user a second id, and its old e-mail stays registered with no user; the repository invariant breaks |
| `SrcUserService.UserService.GetAll` | src/main/java/ru/practicum/shareit/user/service/UserServiceImpl.java:25-33 | exactly the stored users |
| `SrcUserService.UserService.GetById` | src/main/java/ru/practicum/shareit/user/service/UserServiceImpl.java:35-42 | the stored user, or NotFound iff absent |
| `SrcUserService.UserService.Create` | src/main/java/ru/practicum/shareit/user/service/UserServiceImpl.java:44-50 | a registered e-mail fails with ServerException and changes nothing; otherwise the user is stored under the counter |
| `SrcUserService.UserService.Update` | src/main/java/ru/practicum/shareit/user/service/UserServiceImpl.java:52-61 | NotFound for an absent id; the merge succeeds iff its e-mail is unchanged or unregistered, keeps the path id and replaces the stored user; a patch of nulls returns the user unchanged |
| `SrcUserService.UserService.DeleteById` | src/main/java/ru/practicum/shareit/user/service/UserServiceImpl.java:63-67 | with no existence check, an absent id throws (NullReference) and changes nothing; otherwise the user goes |
| `SrcUserService.UserService.DeleteAll` | src/main/java/ru/practicum/shareit/user/service/UserServiceImpl.java:69-73 | users and e-mails are emptied |
| `ItemRequests.ToDtoOutput` | src/main/java/ru/practicum/shareit/request/service/ItemRequestServiceImpl.java:89-91 | the output carries the request's id, description, requestor and creation time, and the given items |
| `ItemRequests.ItemsOfRequest` | src/main/java/ru/practicum/shareit/request/service/ItemRequestServiceImpl.java:94-101 | exactly the items answering the request, keeping an ascending id order of the input; NullReference iff some item answers no request |
| `ItemRequests.IdsOf` | src/main/java/ru/practicum/shareit/request/service/ItemRequestServiceImpl.java:84-86 | exactly the ids of the requests |
| `ItemRequests.FindByRequestIdIn` | src/main/java/ru/practicum/shareit/request/service/ItemRequestServiceImpl.java:87 | exactly the stored items answering one of the listed requests |
| `ItemRequests.FindByRequestIdOrderById` | src/main/java/ru/practicum/shareit/request/service/ItemRequestServiceImpl.java:55 | exactly the stored items answering the request, in strictly ascending id order when items are stored under their ids |
| `ItemRequests.Group` | src/main/java/ru/practicum/shareit/request/service/ItemRequestServiceImpl.java:83-92 | one output per request, in request order, each with exactly the items answering it; fails only if some item answers no request |
| `ItemRequests.GroupOfQueriedItems` | src/main/java/ru/practicum/shareit/request/service/ItemRequestServiceImpl.java:83-92 | grouping the items the IN query returns never throws |
| `ItemRequests.GroupShows` | src/main/java/ru/practicum/shareit/request/service/ItemRequestServiceImpl.java:83-101 | grouping the IN query's items succeeds and shows each request, in order, with exactly the stored items answering it |
| `ItemRequests.OthersNewestFirst` | src/main/java/ru/practicum/shareit/request/service/ItemRequestServiceImpl.java:63-65 | a permutation of exactly the other users' requests, created descending |
| `ItemRequests.ItemShownUnderItsRequest` | src/main/java/ru/practicum/shareit/request/service/ItemRequestServiceImpl.java:83-101 | a stored item answering a listed request is shown under that request and under no request with another id |
| `ItemRequests.ItemRequestService.OwnRequests` | src/main/java/ru/practicum/shareit/request/service/ItemRequestServiceImpl.java:40 | exactly the stored requests of the requestor |
| `ItemRequests.ItemRequestService.GetAll` | src/main/java/ru/practicum/shareit/request/service/ItemRequestServiceImpl.java:35-43 | NotFound iff the requestor is absent; otherwise one output per own request, in order, each showing its request's fields and exactly the stored items answering it, and every own request listed |
| `ItemRequests.ItemRequestService.GetById` | src/main/java/ru/practicum/shareit/request/service/ItemRequestServiceImpl.java:46-58 | NotFound for the user, then for the request; otherwise the request's id, description, requestor and creation time with exactly the items answering it, in ascending id order |
| `ItemRequests.ItemRequestService.OthersPage` | src/main/java/ru/practicum/shareit/request/service/ItemRequestServiceImpl.java:63-65 | exactly page `from / size` of `OthersNewestFirst`: at most `size` stored requests of other users, newest first |
| `ItemRequests.ItemRequestService.GetAllAnotherUsers` | src/main/java/ru/practicum/shareit/request/service/ItemRequestServiceImpl.java:61-68 | one output per request of `OthersPage`, in order, each showing its request and exactly the stored items answering it; none of the caller's own, newest first |
| `ItemRequests.ItemRequestService.Create` | src/main/java/ru/practicum/shareit/request/service/ItemRequestServiceImpl.java:71-81 | NotFound for an absent user, changing nothing; otherwise the request, stamped `now`, is stored under the next id and appended, and its output has no item list |

## Findings

| source | as written | input that shows it | evidently intended | confidence | as-written member | corrected member |
|---|---|---|---|---|---|---|
| src/main/java/ru/practicum/shareit/user/service/UserServiceImpl.java:75-84 | `update` merges the patch into the stored user object and passes it to `save`, the in-memory repository's insert | a stored user and a patch with null name and e-mail: `save` finds the user's own e-mail registered and throws ServerException. A patch with a new e-mail: the user is stored again under a new id, and its old e-mail stays registered | the merged user is written back under its own id through the repository's `update`, so a null patch returns the user unchanged, as the service's unit test for a null patch expects | high; not executed | `SrcUserService.UpdateAsWritten` (shown by `SrcUserService.UpdateAsWrittenRefusesEmptyPatch` and `SrcUserService.UpdateAsWrittenDuplicatesUser`) | `SrcUserService.UserService.Update` |

## Left out

- Controllers, the gateway layer, Bean Validation, logging and the exception-to-HTTP mapping are not modelled. `Domain.Error` records which status each exception gets.
- The clock is the parameter `now`. The server's CURRENT list reads the clock twice; the model uses one instant.
- The order a database returns among rows with equal sort keys, and the order of a query without ORDER BY, are unspecified. The model fixes one order: id order for a query without ORDER BY, and a stable sort of that for ORDER BY. Most contracts state only what any order would meet (membership, permutation, key order). The five members below pin their result to the model's order, so they are exact only under it. A database that breaks ties differently can draw a different page boundary or list order.
- `ServerBookingRepository.FindBookings` is the page of the model's order. Bookings with equal `start` come in id order.
- `ServerBookingService.GetAll` maps that same page, so it has the same tie order.
- `ItemRequests.ItemRequestService.OthersPage` is the page of the model's order. Requests with equal `created` come in id order.
- `ItemRequests.ItemRequestService.GetAllAnotherUsers` shows the requests of that same page.
- `ItemRequests.ItemRequestService.GetAll` lists the caller's requests in id order (`OwnRequests`). `findByRequestor_Id` has no ORDER BY, so the real order is not fixed.
- `ServerItemService.FillOne` and `ServerItemService.Fill` group comments and bookings by item id. The code groups them by the `Item` entity (`groupingBy(Comment::getItem)`, `groupingBy(Booking::getItem)`) and looks the page's items up in those maps. The two agree only if equal ids mean equal entities: either the items are the same persistence-context instances or `Item.equals` compares ids. The server `Item` class is not part of this model, so the model assumes this.
- Paging requires `from >= 0` and `size > 0`, which the controllers validate. `PageRequest` internals are not modelled.
- Transactions, dirty checking, lazy loading, cascades and foreign keys are not modelled. Deleting a user or an item does not touch the rows that refer to it.
- Bookings, comments and requests hold their item and user as the values they had when stored. A later change to the item or user is not reflected in them.
- Case conversion covers ASCII letters only. `isBlank` uses a fixed set of white-space characters. The `%` and `_` wildcards of SQL LIKE inside the search text are taken literally.
- DTO field mapping beyond the booking converter is not modelled: comment, item and user DTOs are the entities themselves. `ItemRequestDtoConverter.fromDtoInput` is not part of this model, so the creation instant of a request is the parameter `now`.
- `State.java` is not part of this model. Its constants are taken from the service switches and the converter's fallback.
- The server item search (`getByText`) and item queries other than those listed are not modelled: the server `ItemRepository` is not part of this model.
- The src item `create` is not modelled: it calls a converter method that does not match the converter in the tree.
- A create request that carries an id is modelled as a new row; a JPA merge onto an existing row is not modelled.
- Database unique constraints, such as one on user e-mail, are not part of this model.
- `InMemoryUsers.InMemoryUserRepository.FindAll` returns a set: the order of the list follows the hash map and is not modelled.
- `InMemoryItems.InMemoryItemRepository.FindByText` and `FindAll` loop over the map's values and keys in an order the model does not fix.
- `SrcItemService.View` states the item's fields and comments but not its last and next bookings. Those are stated by `SrcItemService.OwnerLast` and `SrcItemService.OwnerNext`, which it calls.
- `SrcUserService.UserService.Update` writes the merged copy back through the repository's `update`, as the source evidently intends (see Findings). The in-place mutation of the stored object as written is modelled on values by `SrcUserService.UpdateAsWritten`.
