# ShareIt lending rules in Dafny

ShareIt is a lending service. Users list items they are willing to lend. Other users book an item for a time window, and the owner approves or rejects the booking. Bookers comment on items, and users post requests for items that others answer by listing one.

This project models the business rules of that service and proves properties about them:

- **Bookings.** Creating a booking, with its fixed chain of checks. The owner's one-time decision. The CURRENT, PAST, FUTURE, WAITING, REJECTED and ALL views for bookers and owners.
- **Items.** Creating and patching items, and the item views with their last and next approved bookings and their comments. Text search, and the guard chain in front of a new comment.
- **Item requests.** Saving a request, and the request views that group answering items by request.
- **Users.** Users with a unique-email constraint, and their partial update.
- **In-memory variant.** The item and user repositories of the earlier, non-persistent variant.
- **Validators.** The allowed-values validator and the start-before-end validator.
- **Mappers.** The item and user mappers.

## Modelling conventions

**Time and case.**
- A LocalDateTime is an integer, and "now" is a parameter of every operation that reads the clock.
- Case folding is ASCII only.

**Errors and nulls.**
- An exception is an `Err` of the `Result` datatype, named after its class: NotFound, Validation, AlreadyExists, IllegalArgument, NullPointer, IndexOutOfBounds.
- A null value is `None`.

**Storage.**
- A JPA table whose ids are generated in insertion order is a `seq`. The row at index i carries id i + 1, and `findById` is `Common.Row`.
- The users table is a `map` from id to user, because users can be deleted.
- The repository queries are filters over a table, kept in table order.
- Tables a service writes are fields of a class (`BookingStore`, `ItemStore`, `ItemRequestStore`, `UserStore`). Its methods append or replace rows. Functions state the outcome of each operation, and the methods are proved to produce it.

**Streams and maps.**
- `Stream.sorted(comparator)` is a stable insertion sort by the comparator's key.
- `Collectors.groupingBy` is a `map` from key to the list of elements with that key, in list order.
- Anything that iterates a HashMap is a method, because the map promises no order. Its contract says which elements come out, not in which order.

**Two source trees.** The repository holds two variants of the item service:
- `ItemService` models the one under `server/`.
- `LegacyItemService` models the one under `src/`. It differs from the server variant in the error path of `save`, in how each item view is assembled, in grouping bookings and comments by item id rather than by item entity, and in listing own items with `findAllByOwnerId`, which has no ordering clause, where the server uses `findAllByOwnerIdOrderById`. It is proved equal to the server variant wherever the two agree.

## Model

| member | source | states |
|---|---|---|
| Comparators.OrderByStartDateAsc | server/src/main/java/ru/practicum/shareit/util/Comparator.java:9-17 | the sign is that of `a.start - b.start`: zero exactly for equal starts, negative exactly when `a` starts first |
| Comparators.OrderByStartDateDesc | server/src/main/java/ru/practicum/shareit/util/Comparator.java:19-27 | the sign is that of `b.start - a.start`: zero exactly for equal starts, negative exactly when `a` starts later |
| Comparators.AscAntisymmetric | server/src/main/java/ru/practicum/shareit/util/Comparator.java:9-17 | swapping the arguments of the ascending comparator negates its result |
| Comparators.DescIsReversedAsc | server/src/main/java/ru/practicum/shareit/util/Comparator.java:9-27 | the descending comparator is the ascending one with its arguments swapped, and its negation |
| Comparators.AscTransitive | server/src/main/java/ru/practicum/shareit/util/Comparator.java:9-17 | the ascending comparator is transitive |
| Comparators.SortBySorted | server/src/main/java/ru/practicum/shareit/item/service/ItemServiceImpl.java:194-195 | the stable sort yields keys that never decrease and is a permutation of its input |
| Comparators.SortAscOrdered | server/src/main/java/ru/practicum/shareit/item/service/ItemServiceImpl.java:194-195 | sorting with orderByStartDateAsc gives non-decreasing starts, each adjacent pair compared <= 0, and a permutation |
| Comparators.SortDescOrdered | server/src/main/java/ru/practicum/shareit/item/service/ItemServiceImpl.java:203-204 | sorting with orderByStartDateDesc gives non-increasing starts, each pair compared <= 0, and a permutation |
| Comparators.SortAscMembers | server/src/main/java/ru/practicum/shareit/item/service/ItemServiceImpl.java:194-195 | sorting ascending neither adds nor drops a booking |
| Comparators.SortDescMembers | server/src/main/java/ru/practicum/shareit/item/service/ItemServiceImpl.java:203-204 | sorting descending neither adds nor drops a booking |
| Comparators.FirstMatchOfSort | server/src/main/java/ru/practicum/shareit/item/service/ItemServiceImpl.java:194-198 | sort, filter, findFirst: empty exactly when no element qualifies; otherwise an input element that qualifies and has the smallest key among those that do |
| BookingQueries.FindByBooker | server/src/main/java/ru/practicum/shareit/booking/BookingRepository.java:27-32 | exactly the table's bookings made by the user |
| BookingQueries.FindByBookerCurrent | server/src/main/java/ru/practicum/shareit/booking/BookingRepository.java:41-50 | exactly the user's bookings with start < now < end |
| BookingQueries.FindByBookerPast | server/src/main/java/ru/practicum/shareit/booking/BookingRepository.java:52-59 | exactly the user's bookings with end < now |
| BookingQueries.FindByBookerFuture | server/src/main/java/ru/practicum/shareit/booking/BookingRepository.java:61-68 | exactly the user's bookings with start > now |
| BookingQueries.FindByBookerAndStatus | server/src/main/java/ru/practicum/shareit/booking/BookingRepository.java:70-77 | exactly the user's bookings in the given status |
| BookingQueries.FindByItemOwner | server/src/main/java/ru/practicum/shareit/booking/BookingRepository.java:79-84 | exactly the bookings of items the user owns |
| BookingQueries.FindByItemOwnerCurrent | server/src/main/java/ru/practicum/shareit/booking/BookingRepository.java:86-94 | exactly the bookings of the user's items with start < now < end |
| BookingQueries.FindByItemOwnerPast | server/src/main/java/ru/practicum/shareit/booking/BookingRepository.java:96-103 | exactly the bookings of the user's items with end < now |
| BookingQueries.FindByItemOwnerFuture | server/src/main/java/ru/practicum/shareit/booking/BookingRepository.java:105-112 | exactly the bookings of the user's items with start > now |
| BookingQueries.FindByItemOwnerAndStatus | server/src/main/java/ru/practicum/shareit/booking/BookingRepository.java:114-121 | exactly the bookings of the user's items in the given status |
| BookingQueries.FindBookingsByItemId | server/src/main/java/ru/practicum/shareit/booking/BookingRepository.java:123-131 | exactly the bookings of the listed items owned by `ownerId` in the status, ordered by start |
| BookingQueries.FindByItemIdStatusNotInStartBefore | server/src/main/java/ru/practicum/shareit/booking/BookingRepository.java:133-134 | exactly the item's bookings whose status is not listed and that start before the given time |
| BookingQueries.FindBookingsByItemIn | server/src/main/java/ru/practicum/shareit/booking/BookingRepository.java:136 | exactly the bookings of the listed items |
| BookingQueries.StrictTimeBoundaries | server/src/main/java/ru/practicum/shareit/booking/BookingRepository.java:41-68 | a booking ending now is neither current nor past; one starting now is neither current nor future (booker and owner views) |
| BookingQueries.TimeViewsPartition | server/src/main/java/ru/practicum/shareit/booking/BookingRepository.java:41-68 | a booking with start < end that neither starts nor ends now is in exactly one of CURRENT, PAST, FUTURE |
| BookingService.ParseState | src/main/java/ru/practicum/shareit/booking/service/BookingServiceImpl.java:79 | the parsed state's name is the upper-cased string; an unknown name is IllegalArgument |
| BookingService.ParseStateIgnoresCase | src/main/java/ru/practicum/shareit/booking/service/BookingServiceImpl.java:79 | the state string is matched whatever its case |
| BookingService.FindByUserId | src/main/java/ru/practicum/shareit/booking/service/BookingServiceImpl.java:72-111 | NotFound for an unknown user before the state is parsed, IllegalArgument for an unknown state, otherwise exactly the user's bookings in the view |
| BookingService.FindOwnerBookings | src/main/java/ru/practicum/shareit/booking/service/BookingServiceImpl.java:154-195 | NotFound for an unknown user, IllegalArgument for an unknown state, otherwise exactly the bookings of the user's items in the view |
| BookingService.ListingsIgnoreCase | src/main/java/ru/practicum/shareit/booking/service/BookingServiceImpl.java:79 | both listings answer the same for a state string and its lower-cased form |
| BookingService.FindAllBookingsByUserId | src/main/java/ru/practicum/shareit/booking/service/BookingServiceImpl.java:136-150 | the booking is returned exactly when it exists, the user exists and is its booker or item owner; every failure is NotFound |
| BookingService.NewBooking | src/main/java/ru/practicum/shareit/booking/service/BookingServiceImpl.java:35-68 | NotFound for an unknown item; success exactly when the booker is not the owner, the item is available, start < end, the end is not past and the booker exists; NotFound for an unknown booker once every other check passes; the stored booking is WAITING with the given window |
| BookingService.NewBookingErrors | src/main/java/ru/practicum/shareit/booking/service/BookingServiceImpl.java:39-54 | booking one's own item is NotFound; an unavailable item or a past, empty or reversed window is Validation |
| BookingService.BookerLookedUpLast | src/main/java/ru/practicum/shareit/booking/service/BookingServiceImpl.java:48-57 | while the window is invalid the outcome fails and does not depend on the user table |
| BookingService.Decide | src/main/java/ru/practicum/shareit/booking/service/BookingServiceImpl.java:114-130 | NotFound for an unknown booking, an unknown user or the booker; Validation when the caller does not own the item or the booking is not WAITING; NullPointer for an absent flag after those checks; success exactly when the caller owns the item, the booking is WAITING and the flag is present; only the status changes, to APPROVED or REJECTED |
| BookingService.DecisionIsFinal | src/main/java/ru/practicum/shareit/booking/service/BookingServiceImpl.java:125-130 | after a successful decision the booking is no longer WAITING and every further decision on it fails |
| BookingService.BookingStore.Save | src/main/java/ru/practicum/shareit/booking/service/BookingServiceImpl.java:35-68 | the outcome is NewBooking with the next id; on success the booking is appended, on failure the table is unchanged |
| BookingService.BookingStore.UpdateAvailableStatus | src/main/java/ru/practicum/shareit/booking/service/BookingServiceImpl.java:114-133 | the outcome is Decide; on success only that row is replaced, on failure the table is unchanged |
| ItemService.NewItem | server/src/main/java/ru/practicum/shareit/item/service/ItemServiceImpl.java:47-63 | NotFound for an unknown owner or request; otherwise the dto's fields, the owner and the named request |
| ItemService.Merge | server/src/main/java/ru/practicum/shareit/item/service/ItemServiceImpl.java:75-83 | a field changes only to a present (name, description: non-blank) patch value and always does when one is given; id, owner and request never change |
| ItemService.MergeIdempotent | server/src/main/java/ru/practicum/shareit/item/service/ItemServiceImpl.java:75-83 | applying a patch twice is applying it once |
| ItemService.MergeEmptyPatch | server/src/main/java/ru/practicum/shareit/item/service/ItemServiceImpl.java:75-83 | an all-null patch changes nothing |
| ItemService.MergeIgnoresBlank | server/src/main/java/ru/practicum/shareit/item/service/ItemServiceImpl.java:75-80 | a blank name or description is ignored like a null one |
| ItemService.NextBooking | server/src/main/java/ru/practicum/shareit/item/service/ItemServiceImpl.java:192-199 | none exactly when no approved booking starts after now; otherwise such a booking with the earliest start |
| ItemService.LastBooking | server/src/main/java/ru/practicum/shareit/item/service/ItemServiceImpl.java:201-208 | none exactly when no approved booking starts before now; otherwise such a booking with the latest start |
| ItemService.StartingNowIsNeither | server/src/main/java/ru/practicum/shareit/item/service/ItemServiceImpl.java:196-206 | bookings starting exactly now give neither a last nor a next booking |
| ItemService.DtoOf | server/src/main/java/ru/practicum/shareit/item/service/ItemServiceImpl.java:133-134 | null exactly for an absent booking; otherwise its id and booker id |
| ItemService.SelectedBookings | server/src/main/java/ru/practicum/shareit/item/service/ItemServiceImpl.java:106-110 | one item: exactly its APPROVED bookings on items owned by the caller; several items: exactly every booking of any of them |
| ItemService.ItemBookings | server/src/main/java/ru/practicum/shareit/item/service/ItemServiceImpl.java:114-115 | the selected bookings of one item |
| ItemService.ItemComments | server/src/main/java/ru/practicum/shareit/item/service/ItemServiceImpl.java:112-123 | exactly the item's comments, oldest first |
| ItemService.CommentDtos | server/src/main/java/ru/practicum/shareit/item/service/ItemServiceImpl.java:122-126 | one response view per comment, in order |
| ItemService.FindItemsDto | server/src/main/java/ru/practicum/shareit/item/service/ItemServiceImpl.java:99-139 | one view per item in input order, with its fields and request id, its comments oldest first and the last and next bookings among those selected for it |
| ItemService.SingleItemHidesBookingsFromOthers | server/src/main/java/ru/practicum/shareit/item/service/ItemServiceImpl.java:106-107 | a single item viewed by someone other than its owner shows no last and no next booking |
| ItemService.ListedItemsShowEveryonesBookings | server/src/main/java/ru/practicum/shareit/item/service/ItemServiceImpl.java:108-110 | with several items an approved past booking of any listed item is shown to whoever lists it |
| ItemService.FindById | server/src/main/java/ru/practicum/shareit/item/service/ItemServiceImpl.java:92-97 | NotFound for an unknown item; otherwise the single-item view |
| ItemService.FindItemsByText | src/main/java/ru/practicum/shareit/item/ItemRepository.java:17-21 | exactly the available items whose upper-cased name or description contains the upper-cased text |
| ItemService.SearchByText | server/src/main/java/ru/practicum/shareit/item/service/ItemServiceImpl.java:143-150 | nothing for a blank text; otherwise one view per matching item, in the query's order, carrying that item's id, name and description, every one available |
| ItemService.OwnItems | src/main/java/ru/practicum/shareit/item/ItemRepository.java:15 | exactly the caller's items |
| ItemService.FindItemsByUserId | server/src/main/java/ru/practicum/shareit/item/service/ItemServiceImpl.java:154-157 | one view per item of the caller, in order |
| ItemService.NewComment | server/src/main/java/ru/practicum/shareit/item/service/ItemServiceImpl.java:160-190 | Validation for blank text, then NotFound for user and item, then Validation when the user has no booking and again when the item has no non-REJECTED booking started before now; success exactly when the user has some booking and the item has a non-REJECTED booking started before now; the comment carries text, now, item and author |
| ItemService.CommentEligibilityIsNotPerUser | server/src/main/java/ru/practicum/shareit/item/service/ItemServiceImpl.java:171-179 | for all inputs: a user whose bookings are all of other items may comment once someone else's non-REJECTED booking of this item has started |
| ItemService.ItemStore.Save | server/src/main/java/ru/practicum/shareit/item/service/ItemServiceImpl.java:47-63 | the outcome is NewItem with the next id; appended on success, nothing stored on failure |
| ItemService.ItemStore.Update | server/src/main/java/ru/practicum/shareit/item/service/ItemServiceImpl.java:66-88 | NotFound unless the item exists and the caller owns it; otherwise the stored row becomes Merge of it and the patch, nothing else changes |
| ItemService.ItemStore.SaveComment | server/src/main/java/ru/practicum/shareit/item/service/ItemServiceImpl.java:160-190 | the outcome is NewComment; on success the comment is appended and returned as its response view |
| LegacyItemService.NewItem | src/main/java/ru/practicum/shareit/item/service/ItemServiceImpl.java:47-63 | as written: an unknown request ends in a null dereference; otherwise as the corrected save |
| LegacyItemService.UnknownRequestIsNullDereference | src/main/java/ru/practicum/shareit/item/service/ItemServiceImpl.java:55-59 | both variants store the same item; for an unknown request this one is NullPointer where the corrected one is NotFound |
| LegacyItemService.ItemView | src/main/java/ru/practicum/shareit/item/service/ItemServiceImpl.java:134-150 | last and next are null exactly when their selections are empty; the four-way branch gives the same view as the single expression |
| LegacyItemService.FindItemsDto | src/main/java/ru/practicum/shareit/item/service/ItemServiceImpl.java:99-153 | one view per item, equal to the grouped-by-item variant |
| LegacyItemService.SearchByText | src/main/java/ru/practicum/shareit/item/service/ItemServiceImpl.java:157-164 | nothing for a blank text; equal to the other variant |
| ItemRequestService.FindItemByItemRequestIn | src/main/java/ru/practicum/shareit/item/ItemRepository.java:23 | exactly the items whose request is one of the given requests |
| ItemRequestService.RequestsBy | src/main/java/ru/practicum/shareit/request/ItemRequestRepository.java:9 | exactly the requests made by the requestor |
| ItemRequestService.RequestsNotBy | src/main/java/ru/practicum/shareit/request/ItemRequestRepository.java:11 | exactly the requests made by anyone else |
| ItemRequestService.ItemsOf | src/main/java/ru/practicum/shareit/request/service/ItemRequestServiceImpl.java:112-113 | exactly the items answering the request, in list order |
| ItemRequestService.Group | src/main/java/ru/practicum/shareit/request/service/ItemRequestServiceImpl.java:109-119 | every group is non-empty and holds only items answering its key; every item is in the group of its request |
| ItemRequestService.GroupIsItemsOf | src/main/java/ru/practicum/shareit/request/service/ItemRequestServiceImpl.java:109-119 | a request is a key exactly when some item answers it, and its group is all such items in list order |
| ItemRequestService.ItemsOfIsFilter | src/main/java/ru/practicum/shareit/request/service/ItemRequestServiceImpl.java:110-113 | the items of a request are the list filtered by that request, in list order |
| ItemRequestService.ItemsOfFilter | src/main/java/ru/practicum/shareit/request/service/ItemRequestServiceImpl.java:110-113 | narrowing the list by the request filter keeps the items of a listed request as they were |
| ItemRequestService.FindItemsToItemRequests | src/main/java/ru/practicum/shareit/request/service/ItemRequestServiceImpl.java:109-119 | keys are requests with the id of a given request, groups non-empty and answering their key; every answering item is grouped |
| ItemRequestService.GroupOfListedRequest | src/main/java/ru/practicum/shareit/request/service/ItemRequestServiceImpl.java:57-62 | for a listed request, getOrDefault gives exactly the items answering it, in item order |
| ItemRequestService.ItemDtos | src/main/java/ru/practicum/shareit/request/service/ItemRequestServiceImpl.java:61-65 | one item view per item, in order |
| ItemRequestService.FindOwnItemRequests | src/main/java/ru/practicum/shareit/request/service/ItemRequestServiceImpl.java:52-71 | NotFound for an unknown user; otherwise one view per own request in order, each with exactly the items answering it |
| ItemRequestService.MapToDto | src/main/java/ru/practicum/shareit/request/service/ItemRequestServiceImpl.java:96-107 | one view per entry of the grouping, every entry present and nothing else |
| ItemRequestService.ItemRequestStore.SaveItemRequest | src/main/java/ru/practicum/shareit/request/service/ItemRequestServiceImpl.java:33-48 | Validation for a null or blank description before NotFound for the user; otherwise the request is appended with the next id, `now` and the requestor |
| ItemRequestService.ItemRequestStore.FindAllItemRequests | src/main/java/ru/practicum/shareit/request/service/ItemRequestServiceImpl.java:75-82 | NotFound for an unknown user; otherwise one view per other users' request that some item answers, none empty |
| ItemRequestService.ItemRequestStore.FindItemRequestsById | src/main/java/ru/practicum/shareit/request/service/ItemRequestServiceImpl.java:85-94 | NotFound for the user, then the request; IndexOutOfBounds exactly when no item answers the request; success exactly when the user and the request exist and some item answers it, with the view of its non-empty group |
| UserService.MergeUser | src/main/java/ru/practicum/shareit/user/service/UserServiceImpl.java:36-41 | a field changes only to the present patch value, and then only when the stored value is not blank; the id never changes |
| UserService.MergeUserGuardReadsStoredValue | src/main/java/ru/practicum/shareit/user/service/UserServiceImpl.java:36-41 | a blank patch value overwrites a non-blank stored one; a blank stored value is never replaced |
| UserService.MergeUserEmptyPatch | src/main/java/ru/practicum/shareit/user/service/UserServiceImpl.java:36-41 | an all-null patch changes nothing |
| UserService.UserStore.Save | src/main/java/ru/practicum/shareit/user/service/UserServiceImpl.java:21-29 | AlreadyExists exactly when the email is taken, storing nothing; otherwise stored under the next id; emails stay unique |
| UserService.UserStore.Update | src/main/java/ru/practicum/shareit/user/service/UserServiceImpl.java:32-50 | NotFound for an unknown id; AlreadyExists when the merged email is another user's, store unchanged; otherwise only that entry becomes the merged user |
| UserService.UserStore.FindById | src/main/java/ru/practicum/shareit/user/service/UserServiceImpl.java:54-57 | the stored user, or NotFound exactly when absent |
| UserService.UserStore.FindAll | src/main/java/ru/practicum/shareit/user/service/UserServiceImpl.java:61-63 | exactly the stored users, one per entry |
| UserService.UserStore.DeleteById | src/main/java/ru/practicum/shareit/user/service/UserServiceImpl.java:66-68 | the entry is removed and no listed user has that id |
| UserService.DeletedUserIsNotListed | src/main/java/ru/practicum/shareit/user/service/UserServiceImpl.java:61-68 | after deleteById, findAll lists no user with that id |
| InMemoryItemRepository.EmptyTextMatchesEveryAvailableItem | src/main/java/ru/practicum/shareit/item/repository/InMemoryItemRepositoryImpl.java:51-59 | the empty text matches exactly the available items |
| InMemoryItemRepository.MatchesIgnoresCase | src/main/java/ru/practicum/shareit/item/repository/InMemoryItemRepositoryImpl.java:52-59 | the case of the text does not change what it matches |
| InMemoryItemRepository.ItemRepository.CreateItem | src/main/java/ru/practicum/shareit/item/repository/InMemoryItemRepositoryImpl.java:18-28 | the item takes the counter as id, the counter advances, the item is stored and appended to its user's list |
| InMemoryItemRepository.ItemRepository.UpdateItem | src/main/java/ru/practicum/shareit/item/repository/InMemoryItemRepositoryImpl.java:30-33 | stores under the id and returns the previous value or null; the index is untouched |
| InMemoryItemRepository.ItemRepository.GetItemById | src/main/java/ru/practicum/shareit/item/repository/InMemoryItemRepositoryImpl.java:35-38 | the stored item, or empty exactly when absent |
| InMemoryItemRepository.ItemRepository.GetItems | src/main/java/ru/practicum/shareit/item/repository/InMemoryItemRepositoryImpl.java:40-43 | exactly the stored items, one per key |
| InMemoryItemRepository.ItemRepository.GetItemsByUserId | src/main/java/ru/practicum/shareit/item/repository/InMemoryItemRepositoryImpl.java:45-48 | the user's list, or null exactly when the user created none |
| InMemoryItemRepository.ItemRepository.SearchByText | src/main/java/ru/practicum/shareit/item/repository/InMemoryItemRepositoryImpl.java:50-62 | exactly the stored items that are available and whose lower-cased name or description contains the lower-cased text |
| InMemoryItemRepository.CreateTwice | src/main/java/ru/practicum/shareit/item/repository/InMemoryItemRepositoryImpl.java:18-28 | two creations give consecutive ids, both readable, appended in order to the user's list |
| InMemoryUserRepository.UserRepository.CreateUser | src/main/java/ru/practicum/shareit/user/repository/InMemoryUserRepositoryImpl.java:17-22 | the user takes the counter as id, the counter advances, the user is stored under it |
| InMemoryUserRepository.UserRepository.UpdateUser | src/main/java/ru/practicum/shareit/user/repository/InMemoryUserRepositoryImpl.java:24-27 | stores under the id and returns the previous value or null |
| InMemoryUserRepository.UserRepository.GetUserById | src/main/java/ru/practicum/shareit/user/repository/InMemoryUserRepositoryImpl.java:29-32 | the stored user, or empty exactly when absent |
| InMemoryUserRepository.UserRepository.GetUsers | src/main/java/ru/practicum/shareit/user/repository/InMemoryUserRepositoryImpl.java:34-37 | exactly the stored users, one per key |
| InMemoryUserRepository.UserRepository.DeleteUserById | src/main/java/ru/practicum/shareit/user/repository/InMemoryUserRepositoryImpl.java:39-42 | removes that key only; nothing changes for an absent id |
| InMemoryUserRepository.CreateReadDelete | src/main/java/ru/practicum/shareit/user/repository/InMemoryUserRepositoryImpl.java:17-42 | a created user is read back under its id and is gone once deleted |
| ValuesAllowed.AnyMatch | common/src/main/java/ru/practicum/shareit/validation/ValuesAllowedConstraintValidator.java:20 | true exactly when some allowed value equals the value ignoring case |
| ValuesAllowed.Verdict | common/src/main/java/ru/practicum/shareit/validation/ValuesAllowedConstraintValidator.java:20 | null is valid; another value is valid exactly when some allowed value equals it ignoring case; an empty list accepts null only |
| ValuesAllowed.VerdictIgnoresCase | common/src/main/java/ru/practicum/shareit/validation/ValuesAllowedConstraintValidator.java:20 | the case of the value does not change the verdict |
| ValuesAllowed.ConstraintContext.DisableDefaultConstraintViolation | common/src/main/java/ru/practicum/shareit/validation/ValuesAllowedConstraintValidator.java:23 | the default violation is disabled, the added violations untouched |
| ValuesAllowed.ConstraintContext.AddConstraintViolation | common/src/main/java/ru/practicum/shareit/validation/ValuesAllowedConstraintValidator.java:24 | exactly one violation with the template is added |
| ValuesAllowed.ValuesAllowedConstraintValidator.Initialize | common/src/main/java/ru/practicum/shareit/validation/ValuesAllowedConstraintValidator.java:12-16 | message and allowed values are those of the annotation, replacing earlier ones |
| ValuesAllowed.ValuesAllowedConstraintValidator.IsValid | common/src/main/java/ru/practicum/shareit/validation/ValuesAllowedConstraintValidator.java:18-28 | the verdict; a rejection disables the default and adds exactly one violation with the message; an acceptance leaves the context untouched |
| ValuesAllowed.LatestInitializeDecides | common/src/main/java/ru/practicum/shareit/validation/ValuesAllowedConstraintValidator.java:12-28 | after two initializations the verdict and the message are those of the second |
| CheckDate.IsValid | src/main/java/ru/practicum/shareit/validation/CheckDateValidator.java:14-22 | a missing start or end is invalid; valid exactly when both are present and start < end |
| CheckDate.ReversedWindow | src/main/java/ru/practicum/shareit/validation/CheckDateValidator.java:18-21 | a window and its reversal are never both valid, and one is when the times differ |
| UserMapper.MapToUser | src/main/java/ru/practicum/shareit/user/mapper/UserMapper.java:10-16 | id, name and email copied unchanged |
| UserMapper.MapToUserDto | src/main/java/ru/practicum/shareit/user/mapper/UserMapper.java:18-24 | id, name and email copied unchanged |
| UserMapper.RoundTrips | src/main/java/ru/practicum/shareit/user/mapper/UserMapper.java:10-24 | the two copies are inverse in both orders |
| ItemMapper.MapToItem | src/main/java/ru/practicum/shareit/item/mapper/ItemMapper.java:12-19 | id, name, description and available copied; no owner |
| ItemMapper.MapToItemDto | src/main/java/ru/practicum/shareit/item/mapper/ItemMapper.java:21-28 | the same four fields copied; no owner, no request |
| ItemMapper.MapToFindByItemDto | src/main/java/ru/practicum/shareit/item/mapper/ItemMapper.java:30-39 | the item's four fields and the given last and next bookings |
| ItemMapper.RoundTrips | src/main/java/ru/practicum/shareit/item/mapper/ItemMapper.java:12-28 | a round trip keeps the four fields and drops owner and request |
| ItemMapper.FindByItemDtoExtendsItemDto | src/main/java/ru/practicum/shareit/item/mapper/ItemMapper.java:21-39 | the view with bookings agrees with the plain DTO on the shared fields |

## Left out

- Paging and sorting parameters (`Pageable`, `Sort`) of the repository queries are not modelled: every query returns all its rows in table order.
- SQL `LIKE` patterns in `findItemsByText`: the text is treated as a literal substring, so `%` and `_` in the search text are not wildcards.
- Unicode case mapping and whitespace beyond the listed characters: `toUpperCase`, `toLowerCase` and `equalsIgnoreCase` fold ASCII letters only.
- The aliasing of in-memory objects: the repositories store values. A caller that later mutates an item object is therefore not reflected in the per-user index or the map.
- The 64-bit width of ids and of the in-memory counters: ids are unbounded integers.
- Null entity fields (a null `available`, name or email in a stored entity) and a null `stateString` are not modelled. Every stored field is present.
- The persistence context's merge of an entity with an explicit id on `save` is not modelled. A saved entity always receives the next id, and a rejected insert consumes no id.
- UserService.UserStore.DeleteById: deleting an absent id is modelled as doing nothing. Some Spring Data versions throw `EmptyResultDataAccessException` instead.
- The `src/` booking repository declares neither `findBookingsByItemId(long, long, Status)` nor `findBookingsByItemIdIn`, although the `src/` item service calls both. The `src/` item views therefore assume the predicates of the server repository's queries of those names.
- The order of `findAllByOwnerId` in the `src/` item repository is unspecified, because the query has no ordering clause. The model lists own items in id order for both variants.
- The server groups bookings and comments by `Item` entity identity, while the model groups them by item id. The two agree because the service is `@Transactional`, so one persistence context hands out one entity per id.
- `mapToItemAllFieldsDto` has no source text in either tree: the `src/` mapper does not define it and the server mapper is generated. The model assumes it copies id, name, description and availability, sets the request id from the item's request (null without one) and takes last, next and comments as given.
- The request entity's equality ignores its requestor, while the model keys the grouping by the full request value. The two agree because a request's requestor never changes.
- The order in which HashMap iteration yields entries (`getItems`, `getUsers`, in-memory `searchByText`, `mapToDto`) is not modelled; only which entries come out is.
- The `default` branch of the state switches in findByUserId and findOwnerBookings is unreachable: `valueOf` either returns one of the six states or throws. It is therefore not modelled.
- Bean Validation annotations on the DTOs (`@NotBlank`, `@Email`) and the web layer that applies them are not part of this model.
- The one-way projections (booking, comment and request mappers) are inlined as the helper functions `Entities.ToBookingDto`, `Entities.ToCommentDto` and `Entities.ToRequestItemDto`. The code-generated mapper interfaces are not part of this model.

## Findings

| source | as written | input that shows it | evidently intended | confidence | as-written member | corrected member |
|---|---|---|---|---|---|---|
| src/main/java/ru/practicum/shareit/item/service/ItemServiceImpl.java:55-59 | the NotFound message for an unknown request reads `item.getItemRequest().getId()`, but the item's request has not been set yet, so a null dereference is thrown instead | an existing owner and a `requestId` with no stored request | NotFound naming the requested id, as the server variant does | not executed | LegacyItemService.NewItem | ItemService.NewItem |
