# DearTime capsule-opening notifications, in Dafny

This project models the part of the DearTime backend that tells a time capsule's receiver
when the capsule can be opened. It also covers the rules that pipeline rests on:

- the capsule and notification tables and their JPQL queries;
- the notification service: the message template, save-then-push, the five trigger
  wrappers, owner-checked mark-as-read, the unread count and delete-all;
- the once-a-minute scheduler tick;
- the pure response rules for capsules and friendships;
- the album table's queries and its cover-clearing bulk update.

Everything is sequential:

- The time is an integer `now` parameter.
- The capsule table is an object (`TimeCapsuleRepository`) holding a sequence of
  `TimeCapsule` objects. Their `isNotified` and `isOpened` flags change in place.
- The notification table is an object (`NotificationRepository`) with a sequence of
  `Notification` objects and the next identity key.
- A WebSocket push is an entry in the service's push log.
- Outside failures are inputs:
  - `storeFails` makes one save fail;
  - `failing` is the set of capsule ids whose notification call fails during a tick;
  - `pushOk` / `online` say whether the broker accepts a push.
- A save also fails when a column is longer than its declared length (content 255,
  content title 100, sender nickname 20). The application does not check this. The model
  takes the database to reject such a row, which is what a database in strict SQL mode
  does (see "Left out").

Files:

- `wrappers.dfy`: `Option` and `Result`.
- `seqs.dfy`: filter and stable sort on lexicographic keys. These are the `WHERE` and
  `ORDER BY` clauses of the model.
- `notification_type.dfy`: the notification types and their messages.
- `domain.dfy`: entities and column bounds.
- `capsule_repository.dfy`: the capsule table.
- `notification_repository.dfy`: the notification table.
- `notifier.dfy`: the notification service.
- `scheduler.dfy`: the tick.
- `capsule_response.dfy`, `friend_response.dfy`: the response rules.
- `album_repository.dfy`: the album table.

The Java `notify*` methods and `createAndSendNotification` throw when the save fails. Here
they return `Failure(SaveFailed)`. `markAsRead` returns `Failure(ResourceNotFound)` or
`Failure(AccessDenied)` where the Java code throws `CoreApiException` with that error code.
The tick catches every failure, as the Java loop does.

## Model

| member | source | states |
|---|---|---|
| NotificationTypes.NotificationType.DefaultMessage | src/main/java/com/project/deartime/app/notification/domain/NotificationType.java:7-21 | every type has a non-empty message of at most 17 characters |
| NotificationTypes.NotificationType.Name | src/main/java/com/project/deartime/app/notification/domain/NotificationType.java:7-11 | the constant name the `type` column stores is non-empty and at most 16 characters |
| NotificationTypes.NameInjective | src/main/java/com/project/deartime/app/domain/Notification.java:25-27 | two types store the same name exactly when they are the same type, so the column reads back as the type |
| Domain.TypeFitsColumn | src/main/java/com/project/deartime/app/domain/Notification.java:25-27 | every stored type name fits the 30-character `type` column |
| NotificationTypes.DefaultMessageInjective | src/main/java/com/project/deartime/app/notification/domain/NotificationType.java:7-21 | two types have the same default message exactly when they are the same type, so the message determines the type |
| NotificationTypes.MessagesSuffixFree | src/main/java/com/project/deartime/app/notification/domain/NotificationType.java:7-11 | no type's message ends with another type's message |
| Domain.TimeCapsule.Build | src/main/java/com/project/deartime/app/domain/TimeCapsule.java:36-42 | a new capsule has `isNotified` and `isOpened` false and holds the given columns |
| Domain.TimeCapsule.MarkAsNotified | src/main/java/com/project/deartime/app/domain/TimeCapsule.java:57-59 | `isNotified` is true afterwards, whatever it was, so a second call changes nothing; only that field is in the frame, so `isOpened` is unchanged |
| Domain.TimeCapsule.OpenCapsule | src/main/java/com/project/deartime/app/domain/TimeCapsule.java:64-66 | `isOpened` is true afterwards, whatever it was; only that field is in the frame, so `isNotified` is unchanged |
| Domain.Notification.Build | src/main/java/com/project/deartime/app/domain/Notification.java:41-43 | a new notification is unread and holds the given columns |
| Domain.Notification.MarkAsRead | src/main/java/com/project/deartime/app/domain/Notification.java:48-50 | `isRead` is true afterwards, whatever it was; no other field is in the frame |
| CapsuleStore.FindCapsulesReadyToOpen | src/main/java/com/project/deartime/app/capsule/repository/TimeCapsuleRepository.java:38-39 | every capsule returned is stored, has `openAt <= now` and is unnotified, and every stored capsule like that is returned; `openAt == now` is included |
| CapsuleStore.DueListedOnce | src/main/java/com/project/deartime/app/capsule/repository/TimeCapsuleRepository.java:38-39 | over a table with distinct keys, the due list has distinct keys, so the tick meets each capsule once |
| CapsuleStore.TimeCapsuleRepository.UpdateIsNotifiedToTrue | src/main/java/com/project/deartime/app/capsule/repository/TimeCapsuleRepository.java:46-48 | the count is 0 or 1; it is 1 exactly when an unnotified capsule with that id exists; afterwards a capsule is notified exactly when it was before or has that id; no `isOpened` changes |
| CapsuleStore.ClaimSequence | src/main/java/com/project/deartime/app/capsule/repository/TimeCapsuleRepository.java:46-48 | in `n` claims of one id, the first returns 1 exactly when an unnotified capsule with that id existed, every later claim returns 0, and at most one claim returns 1; afterwards a capsule is notified exactly when it was or has that id (and `n > 0`), and no `isOpened` changes |
| CapsuleStore.FindBySenderIdExact | src/main/java/com/project/deartime/app/capsule/repository/TimeCapsuleRepository.java:19 | `findBySenderId` returns exactly the capsules with that sender |
| CapsuleStore.FindByReceiverIdExact | src/main/java/com/project/deartime/app/capsule/repository/TimeCapsuleRepository.java:21 | `findByReceiverId` returns exactly the capsules with that receiver |
| CapsuleStore.FindAllCapsulesSpec | src/main/java/com/project/deartime/app/capsule/repository/TimeCapsuleRepository.java:26-27 | `findAllCapsules` is a permutation of the capsules the user sent or received, holds exactly those, and is ordered by `createdAt` descending |
| CapsuleStore.FindOpenedIsOrderedSubsetOfAll | src/main/java/com/project/deartime/app/capsule/repository/TimeCapsuleRepository.java:32-33 | `findOpenedCapsules` equals `findAllCapsules` with only the capsules whose `openAt <= now` kept, in the same order |
| NotificationStore.NotificationRepository.Save | src/main/java/com/project/deartime/app/domain/Notification.java:29-39 | the insert succeeds exactly when no outside failure occurs and the content, title and nickname fit their declared lengths; on success the record is appended and the next key advances, otherwise nothing changes |
| NotificationStore.FindById | src/main/java/com/project/deartime/app/notification/service/NotificationService.java:184-186 | a record found has that key and is stored; none found means no stored record has that key |
| NotificationStore.ListingSpec | src/main/java/com/project/deartime/app/notification/repository/NotificationRepository.java:20-21 | the ordered listing is a permutation of the user's records, no unread record comes after a read one, and records with the same flag are newest first |
| NotificationStore.FindUnreadByUserIdSpec | src/main/java/com/project/deartime/app/notification/repository/NotificationRepository.java:39-40 | `findUnreadByUserId` returns exactly the user's unread records, each once, ordered by `createdAt` descending |
| NotificationStore.CountUnreadMatchesFindUnread | src/main/java/com/project/deartime/app/notification/repository/NotificationRepository.java:26-27 | `countUnreadByUserId` equals the length of `findUnreadByUserId` |
| NotificationStore.NotificationRepository.DeleteAllByUserId | src/main/java/com/project/deartime/app/notification/repository/NotificationRepository.java:32-34 | the table becomes the old table without the user's records and stays well formed |
| NotificationStore.DeleteAllByUserIdSpec | src/main/java/com/project/deartime/app/notification/repository/NotificationRepository.java:26-34 | after the delete a record remains exactly when it was stored and belongs to another user, and the user's unread count is 0 |
| NotificationStore.WithoutUserKeepsWellFormed | src/main/java/com/project/deartime/app/notification/repository/NotificationRepository.java:32-34 | the delete keeps keys distinct and every remaining record within its column bounds |
| Notifier.BuildNotificationContent | src/main/java/com/project/deartime/app/notification/service/NotificationService.java:83-85 | the content starts with the sender's nickname and ends with the honorific and the type's message, and is exactly as long as those two parts |
| Notifier.ParseBuiltContent | src/main/java/com/project/deartime/app/notification/service/NotificationService.java:83-85 | every content built from a type and nickname reads back as exactly that type and nickname |
| Notifier.BuildParsedContent | src/main/java/com/project/deartime/app/notification/service/NotificationService.java:83-85 | every string that reads back is the content built from what it reads back as |
| Notifier.ContentInjective | src/main/java/com/project/deartime/app/notification/service/NotificationService.java:83-85 | two contents are equal exactly when their types and nicknames are |
| Notifier.ContentFitsColumn | src/main/java/com/project/deartime/app/notification/service/NotificationService.java:83-85 | a nickname of at most 20 characters gives a content of at most 255 characters |
| Notifier.Admissible | src/main/java/com/project/deartime/app/domain/Notification.java:29-39 | a built record fits its columns exactly when the nickname has at most 20 characters and the title, if any, at most 100 |
| Notifier.NotificationService.SendWebSocketNotification | src/main/java/com/project/deartime/app/notification/service/NotificationService.java:68-78 | the call always returns normally; the push is logged exactly when the broker accepts it |
| Notifier.NotificationService.CreateAndSendNotification | src/main/java/com/project/deartime/app/notification/service/NotificationService.java:33-63 | the save succeeds exactly when the store accepts the built record; the record is then appended with the next key, is unread, and holds the receiver, type, built content, nickname, title and target; it is pushed to the receiver when the broker accepts, and a refused push leaves it saved and returned |
| Notifier.NotificationService.NotifyLetterReceived | src/main/java/com/project/deartime/app/notification/service/NotificationService.java:93-101 | as `createAndSendNotification` with type LETTER_RECEIVED, the letter title as title and the letter id as target |
| Notifier.NotificationService.NotifyCapsuleReceived | src/main/java/com/project/deartime/app/notification/service/NotificationService.java:107-115 | as `createAndSendNotification` with type CAPSULE_RECEIVED, no title and the capsule id as target |
| Notifier.NotificationService.NotifyCapsuleOpened | src/main/java/com/project/deartime/app/notification/service/NotificationService.java:121-129 | as `createAndSendNotification` with type CAPSULE_OPENED, the capsule title as title and the capsule id as target |
| Notifier.NotificationService.NotifyFriendRequest | src/main/java/com/project/deartime/app/notification/service/NotificationService.java:135-143 | as `createAndSendNotification` with type FRIEND_REQUEST, no title and the requester id as target |
| Notifier.NotificationService.NotifyFriendAccept | src/main/java/com/project/deartime/app/notification/service/NotificationService.java:149-157 | as `createAndSendNotification` with type FRIEND_ACCEPT, no title and the accepter id as target |
| Notifier.NotificationService.GetNotifications | src/main/java/com/project/deartime/app/notification/service/NotificationService.java:164-170 | the listing is a permutation of the user's records, unread before read, newest first within each group |
| Notifier.NotificationService.GetUnreadCount | src/main/java/com/project/deartime/app/notification/service/NotificationService.java:175-177 | the count equals the number of records `findUnreadByUserId` returns |
| Notifier.NotificationService.MarkAsRead | src/main/java/com/project/deartime/app/notification/service/NotificationService.java:183-197 | an unknown key is not found and another user's record is access denied, and in both cases no flag changes; the call succeeds exactly when the caller owns a record with that key; then only that record becomes read |
| Notifier.NotificationService.DeleteAllNotifications | src/main/java/com/project/deartime/app/notification/service/NotificationService.java:203-206 | the table becomes the old table without the user's records |
| Notifier.CountUnreadAppend | src/main/java/com/project/deartime/app/notification/repository/NotificationRepository.java:26-27 | appending a record adds one to its owner's unread count if it is unread, and changes no one else's count |
| Scheduler.TimeCapsuleOpenScheduler.CheckAndNotifyOpenedCapsules | src/main/java/com/project/deartime/app/capsule/scheduler/TimeCapsuleOpenScheduler.java:32-62 | `due` is the due list as loaded at the start of the tick, and the loop calls the notifier for it in order. One CAPSULE_OPENED record is appended per due capsule whose call returned normally, in list order: to the receiver, titled with the capsule title, targeting the capsule id, from the sender's nickname, unread, with consecutive keys from the model's key counter (see "Left out") and its accepted push. The flag rule is `isNotified == old(isNotified) or (openAt <= now and the call returned)`. No `isOpened` and no old `isRead` changes. The capsules still due afterwards are exactly the due ones whose call failed |
| Scheduler.TimeCapsuleOpenScheduler.NotifyEach | src/main/java/com/project/deartime/app/capsule/scheduler/TimeCapsuleOpenScheduler.java:43-61 | a failure on one capsule does not stop the loop: the records appended are the announcements of exactly the listed capsules whose call returned normally, in list order and with their accepted pushes, and a capsule's flag is set exactly when it is listed and its call returned normally |
| Scheduler.TimeCapsuleOpenScheduler.NotifyOne | src/main/java/com/project/deartime/app/capsule/scheduler/TimeCapsuleOpenScheduler.java:44-60 | the flag is set only when the notification call returned normally; the record it appended, if any, is that capsule's announcement, with its accepted push |
| Scheduler.TimeCapsuleOpenScheduler.IdleTick | src/main/java/com/project/deartime/app/capsule/scheduler/TimeCapsuleOpenScheduler.java:35-39 | with nothing due, a tick creates no record, leaves the key counter, pushes nothing and changes no capsule flag |
| Scheduler.TimeCapsuleOpenScheduler.TickTwice | src/main/java/com/project/deartime/app/capsule/scheduler/TimeCapsuleOpenScheduler.java:32-62 | when no call of the first tick failed, two ticks at the same `now` leave the table, key counter and push log exactly as one tick does: the old table followed by the announcements of the first tick's due capsules |
| Scheduler.TimeCapsuleOpenScheduler.TickClearsDue | src/main/java/com/project/deartime/app/capsule/scheduler/TimeCapsuleOpenScheduler.java:43-61 | a tick in which no call fails leaves nothing due, besides appending the announcements of its due list |
| Scheduler.TimeCapsuleOpenScheduler.TickAgain | src/main/java/com/project/deartime/app/capsule/scheduler/TimeCapsuleOpenScheduler.java:35-39 | a tick that finds nothing due keeps whatever the store had gained since an earlier state: it adds no record, key or push |
| Scheduler.ExtendsAt | src/main/java/com/project/deartime/app/capsule/scheduler/TimeCapsuleOpenScheduler.java:43-51 | the store gains exactly one record per delivered capsule, and the `k`-th record gained announces the `k`-th delivered capsule, with the `k`-th key after the old counter |
| CapsuleView.From | src/main/java/com/project/deartime/app/capsule/dto/CapsuleResponse.java:67-88 | `isOpened` holds exactly when `openAt < now`; content is present exactly when opened or accessible, and is then the capsule's content; every other field is copied; `canAccess` is the argument |
| CapsuleView.AccessOnlyHidesContent | src/main/java/com/project/deartime/app/capsule/dto/CapsuleResponse.java:72-86 | responses for a caller with access and one without differ only in content and `canAccess` |
| CapsuleView.DueButNotYetOpened | src/main/java/com/project/deartime/app/capsule/dto/CapsuleResponse.java:68 | at `openAt == now` an unnotified capsule is already due for the scheduler, while the response calls it unopened and hides its content from a caller without access |
| CapsuleView.OpenedAfterOpenAt | src/main/java/com/project/deartime/app/capsule/dto/CapsuleResponse.java:68-73 | once `openAt < now` the response is opened and shows the content to every caller |
| FriendView.Of | src/main/java/com/project/deartime/app/friend/dto/FriendResponseDto.java:28-41 | `userId` is the caller; the profile fields all describe the addressee when the caller is the requester, and all describe the requester otherwise; status and request time are copied |
| FriendView.From | src/main/java/com/project/deartime/app/friend/dto/FriendResponseDto.java:43-45 | `from(f)` is `of(f, f.user.id)`, and its profile is the addressee's |
| FriendView.CounterpartIsOtherParty | src/main/java/com/project/deartime/app/friend/dto/FriendResponseDto.java:29-30 | for either party of a friendship between two users, the counterpart is the other party |
| FriendView.OutsiderSeesRequester | src/main/java/com/project/deartime/app/friend/dto/FriendResponseDto.java:29-30 | a caller who is neither party is shown the requester; there is no membership check |
| FriendView.ViewsAreMirrored | src/main/java/com/project/deartime/app/friend/dto/FriendResponseDto.java:28-41 | the requester's view describes the addressee and the addressee's view describes the requester |
| AlbumStore.ClearCover | src/main/java/com/project/deartime/app/gallery/repository/AlbumRepository.java:17-19 | afterwards no album has that cover, and every album that had it has none (`null`); every album keeps all its other columns; an album whose cover was another photo or none is unchanged |
| AlbumStore.AlbumRepository.ClearCoverPhoto | src/main/java/com/project/deartime/app/gallery/repository/AlbumRepository.java:17-19 | the table becomes the `ClearCover` of the old table |
| AlbumStore.ClearCoverIdempotent | src/main/java/com/project/deartime/app/gallery/repository/AlbumRepository.java:17-19 | clearing the same photo twice gives the same table as clearing it once |
| AlbumStore.ClearCoverKeepsOtherCovers | src/main/java/com/project/deartime/app/gallery/repository/AlbumRepository.java:18 | a cover showing another photo is kept |
| AlbumStore.OrderingIsPermutation | src/main/java/com/project/deartime/app/gallery/repository/AlbumRepository.java:23-28 | `findAllByUserIdWithOrdering` is a permutation of `findAllByUserId` and holds exactly the user's albums |
| AlbumStore.OrderingIsFavouritesFirst | src/main/java/com/project/deartime/app/gallery/repository/AlbumRepository.java:25-28 | albums titled "즐겨찾기" come first; within each group the later `updatedAt` comes first, then the larger id |
| AlbumStore.NewestFirstListing | src/main/java/com/project/deartime/app/gallery/repository/AlbumRepository.java:15 | `findByUserIdOrderByCreatedAtDesc` is a permutation of the user's albums, holds exactly those, newest first |
| AlbumStore.FindFirstIsEarliest | src/main/java/com/project/deartime/app/gallery/repository/AlbumRepository.java:21 | the result is none exactly when the user has no album with that title; otherwise it is such an album, created no later than any other |

## Left out

- Paging: every `Pageable` query returns its whole result; page size, offset and the
  `PageResponse` wrapper are not modelled.
- Response mapping: `NotificationResponse.from` only copies fields; the service returns the
  saved entity itself.
- Notifier.NotificationService.SendWebSocketNotification: the push carries only the receiver
  id and the record key, not the `NotificationResponse` payload or the destination string.
- STOMP/WebSocket transport, the broker and its configuration are not modelled; a push
  either is accepted or fails, and a failure is swallowed.
- Logging is not modelled.
- Spring transactions are not modelled; each call is one sequential step. An exception that
  escapes a `@Transactional` notify method may mark the whole tick's transaction
  rollback-only, and that rollback is not captured. The `@Scheduled` cron timing is not
  modelled either.
- Concurrency: at-most-once for the conditional update is proved for sequences of calls,
  not for interleavings.
- The wall clock: `LocalDateTime.now()` and `CURRENT_TIMESTAMP` are the `now` parameter.
  Creation timestamps set by auditing are constructor arguments. The response's clock and
  the scheduler's clock are separate readings.
- Ties: where the `ORDER BY` keys of two rows are equal, the database order is unspecified.
  The model keeps them in store order, which is one allowed outcome.
- CapsuleStore.FindCapsulesReadyToOpen: the query has no `ORDER BY`, so the database may
  return the due capsules in any order. The model returns them in store order, which is one
  allowed outcome. The order in which the tick notifies the capsules and appends their
  records follows that choice; which records are appended and which flags are set do not
  depend on it. `findAllByUserId` (AlbumStore.FindAllByUserId) also returns store order.
- NotificationStore.NotificationRepository.Save: keys come from a counter without gaps. A
  failed insert uses up no key. That is one outcome `GenerationType.IDENTITY` allows, but an
  auto-increment column may skip a value after a failed insert (the foreign-key and
  connection failures folded into `storeFails` are such inserts). The "consecutive keys" of
  `CheckAndNotifyOpenedCapsules` and `ExtendsAt` rest on this choice; with gaps the keys
  would only be increasing.
- Over-long columns: the model takes an over-long content, title or nickname to make the
  insert fail, as a database in strict SQL mode does. A database in non-strict mode
  truncates the value and stores the row instead; that outcome is not modelled.
- String comparison for the "즐겨찾기" title is exact equality; database collation is not
  modelled.
- Java `null` arguments are not modelled. A nickname, title or user is always present, apart
  from the optional columns modelled with `Option`.
- Save failures other than declared column lengths (foreign keys, connection loss) are
  folded into the `storeFails` input; the scheduler's `failing` set feeds it.
- Column lengths are counted in characters. `NotificationRepository.Save` does not check the
  `type` column (30): the longest constant name, `CAPSULE_RECEIVED`, has 16 characters, so that
  bound never makes a save fail (`TypeFitsColumn`). The `theme` (50) and album `title` (50) limits
  are not checked because no modelled operation writes those columns.
- User and Friend are datatypes holding only the fields the core reads. A photo appears only
  as its id (an album's `coverPhoto`). The BaseTimeEntity timestamps are `int` fields
  (`createdAt`, `updatedAt`). Nothing else of those classes is modelled.
- Lazy loading and the persistence context (`clearAutomatically`, `flushAutomatically`):
  the model reads and writes the table directly.
- Authentication, controllers, DTO validation and the user service are outside the modelled
  core.
