# Ticket management: a verified model

This project models the core of a small help-desk system in Dafny. It has two
halves.

**The backend** is a NestJS service with a SQLite store. It models:

- tickets with a three-state workflow: created, then in_progress, then completed;
- a registry of topics with pairwise-distinct names, whose deletion clears the
  tickets' references (`ON DELETE SET NULL`) but keeps their topic-name
  snapshots;
- account and API-key authentication behind a global guard;
- the request DTOs with the global validation pipe (`whitelist`,
  `forbidNonWhitelisted`, `@Type(() => Number)`);
- the migration script that seeds the default topics and backfills topic-name
  snapshots.

**The frontend** is a Next.js app. It models:

- the client library that turns backend rows into UI tickets and builds request
  bodies;
- the in-memory mock store;
- the ticket-detail status menu;
- the dashboard filters and the assignee's split of tickets;
- the topic settings page;
- the new-ticket form;
- three dialogs: assignee id, requester name and delete confirmation.

Modules follow the source files.

- **Backend, pure decisions:**
  - `Enums`, `Entities`, `Dtos`: the records, enumerations and DTO validation.
  - `TicketService`, `TopicService`: the service decisions, as functions over
    `map<int, …>` tables.
  - `AuthService`, `AuthGuard`: authentication.
- **Backend, state:**
  - `Database.Store` is one class owning the ticket and topic tables, so that a
    topic delete can cascade. Each of its methods is proved to leave exactly the
    state the service functions describe.
  - `AuthService.CredentialStore` holds the account and key rows.
- **Migration:** `MigrateTopics` has the seeding loop and the backfill loop as
  methods with loop invariants.
- **Frontend:**
  - `ClientTypes`, `ClientApi`: the client types and the client library.
  - `MockApi`: the mock store, a class whose arrays are `seq` fields.
  - `TicketDetail`, `Dashboard`, `Settings`, `CreateTicketPage`: the pages.
  - `AssigneeIdDialog`, `RequesterNameDialog`, `DeleteTopicDialog`: the dialogs.
- **Shared helpers:**
  - `Text` models JavaScript string handling: `trim`, ASCII `toLowerCase` and
    `toUpperCase`, `indexOf`, `split` with a limit, `parseInt`, `Number`, and
    string comparison.
  - `Lists` holds an order-keeping `filter` and its laws.
  - `Wrappers` holds `Option`, `Result`, `Outcome` and JavaScript truthiness.

The cross-checks between the two halves are proved as lemmas:

- the status menu against the server's transition table;
- the client's description encoding against its decoding;
- the dashboard's load query against the server's `findAll`;
- the new-ticket body against the server's create-ticket validation. That body
  is always refused.

The model follows the code where it departs from the intended design:

- The backend's `createTicket` takes the legacy `topic` enum string. It stores
  no topic id and no topic-name snapshot, and it does not check that a topic
  is active. The snapshot is filled only by the migration's backfill.
- The client sends `topic_id` when it creates a ticket, and the server's DTO
  whitelist refuses it. `ClientApi.CreateTicketBodyIsRefused` proves this.

## Model

| member | source | states |
|---|---|---|
| Enums.ParseTopic | ticket-management-api/src/entities/enums/ticket.enums.ts:1-6 | a string is accepted as a legacy topic exactly when it is one of the four topic strings, and parsing returns the value with that string |
| Enums.ParsePriority | ticket-management-api/src/entities/enums/ticket.enums.ts:8-12 | a string is accepted as a priority exactly when it is low, medium or high, and parsing returns the value with that string |
| Enums.ParseStatus | ticket-management-api/src/entities/enums/ticket.enums.ts:14-18 | a string is accepted as a status exactly when it is created, in_progress or completed, and parsing returns the value with that string |
| Enums.EnumsAreExact | ticket-management-api/src/entities/enums/ticket.enums.ts:1-18 | there are exactly four topics, three priorities and three statuses, each enumeration's strings are pairwise distinct, and every value parses back from its string |
| Entities.OnTopicDeleted | ticket-management-api/src/entities/ticket.entity.ts:27-35 | the SET NULL action clears a ticket's topic reference exactly when it named the deleted topic and leaves every other column, the snapshot included, unchanged |
| Dtos.ValidateCreateTicket | ticket-management-api/src/tickets/dto/create-ticket.dto.ts:13-65 | a body is accepted iff it has only declared properties, requester_id a number ≥ 1, requester_name a non-empty string, assignee_id absent, null or a number ≥ 1, topic and priority enum strings and description a string; the DTO holds the converted requester_id, the name, the topic and priority whose wire strings were sent, the description, and an assignee that is absent, null or the converted number exactly as sent; a refusal names at least one property |
| Dtos.CreateTicketRejectsUndeclared | ticket-management-api/src/tickets/dto/create-ticket.dto.ts:13-65 | a create body carrying status or topic_id is refused, with that property named, because the DTO does not declare it and the pipe forbids undeclared properties |
| Dtos.ValidateUpdateTicket | ticket-management-api/src/tickets/dto/update-ticket.dto.ts:6-26 | a body is accepted iff it has only assignee_id and status, assignee_id is absent, null or a number ≥ 1 and status is absent, null or a status string; each DTO field is absent, null or given exactly as its property is, a given assignee is the converted number and a given status the one whose wire string was sent |
| Dtos.EmptyUpdateTicketIsValid | ticket-management-api/src/tickets/dto/update-ticket.dto.ts:12-25 | the empty update body is valid and carries neither field |
| Dtos.UpdateTicketRejectsUndeclared | ticket-management-api/src/tickets/dto/update-ticket.dto.ts:6-26 | any other property, priority included, makes an update body refused and is named in the refusal |
| Dtos.ValidateFindAllQuery | ticket-management-api/src/tickets/dto/find-all-query.dto.ts:6-45 | a query is accepted iff it has only the four declared parameters, status is a status string and the two ids convert to numbers ≥ 1; each DTO field is present exactly when its parameter is, the status is the one whose wire string was sent, the ids are the `Number` values of their parameters and requester_name is passed through as given |
| Dtos.ValidateCreateTopic | ticket-management-api/src/topics/dto/create-topic.dto.ts:8-19 | a body is accepted iff it is exactly `{name}` with a string of 1 to 100 characters, and the DTO's name is that string |
| Dtos.ValidateUpdateTopic | ticket-management-api/src/topics/dto/update-topic.dto.ts:10-30 | a body is accepted iff it has only name and isActive, a given name has 1 to 100 characters and a given isActive is a boolean; each field is absent, null or given exactly as its property is, and a given value is the one sent |
| Dtos.EmptyUpdateTopicIsValid | ticket-management-api/src/topics/dto/update-topic.dto.ts:17-29 | the empty topic update body is valid and carries neither field |
| TicketService.FiltersOf | ticket-management-api/src/tickets/ticket.controller.ts:121-127 | the controller passes on exactly the truthy query values as filters |
| TicketService.FindAll | ticket-management-api/src/tickets/ticket.service.ts:62-90 | the query returns stored rows unchanged under their own ids |
| TicketService.FindAllIsFiltering | ticket-management-api/src/tickets/ticket.service.ts:62-90 | a ticket is listed iff it is stored and equals every truthy filter (status, requester id, exact requester name, assignee id); filters combine with AND |
| TicketService.FindAllWithoutFilters | ticket-management-api/src/tickets/ticket.service.ts:62-90 | with no filters every stored ticket is listed |
| TicketService.NullNameNeverMatches | ticket-management-api/src/tickets/ticket.service.ts:77-81 | a ticket whose requester name is null is never returned by a requester-name filter |
| TicketService.CreateTicket | ticket-management-api/src/tickets/ticket.service.ts:31-43 | a new ticket always has status created; an empty requester name becomes null; a missing or null assignee becomes null; the topic reference and snapshot stay null; priority and description are copied |
| TicketService.CreatedFromValidBody | ticket-management-api/src/tickets/ticket.service.ts:31-43 | a ticket created from any body the pipe accepts is created, has a requester name and requester id ≥ 1, and any assignee it has is ≥ 1 |
| TicketService.FindById | ticket-management-api/src/tickets/ticket.service.ts:95-105 | the lookup succeeds iff the id is stored, returns that row, and otherwise raises NotFound naming the id |
| TicketService.TransitionAllowed | ticket-management-api/src/tickets/ticket.service.ts:110-153 | the workflow table the checks implement: a move that changes the status goes exactly one step forward; nothing leaves completed; created to in_progress is allowed iff there is an assignee |
| TicketService.ValidateStatusTransition | ticket-management-api/src/tickets/ticket.service.ts:110-153 | a requested status passes iff it stays in created or in_progress, moves created to in_progress with a truthy assignee, or moves in_progress to completed; completed always fails with its own message, as do a start without an assignee and created to completed |
| TicketService.TransitionsAreMonotone | ticket-management-api/src/tickets/ticket.service.ts:110-153 | every allowed transition keeps or raises the lifecycle rank by at most one, and none leaves completed |
| TicketService.UpdateTicket | ticket-management-api/src/tickets/ticket.service.ts:158-177 | the assignee is applied first; the update succeeds iff no status is given or the transition is allowed with the assignee the ticket then has; only assigneeId and status change |
| TicketService.NullStatusIsRejected | ticket-management-api/src/tickets/ticket.service.ts:167-174 | a status sent as JSON null is always rejected |
| TicketService.AssignAndStartTogether | ticket-management-api/src/tickets/ticket.service.ts:161-174 | assigning and starting in one request succeeds from created, and the result has the new assignee and in_progress |
| TicketService.UnassignAndStartFails | ticket-management-api/src/tickets/ticket.service.ts:161-174 | unassigning (null) while starting fails with the assignee-required message, even when the ticket had an assignee |
| TicketService.CompletedTicketIsFrozen | ticket-management-api/src/tickets/ticket.service.ts:148-152 | on a completed ticket an update succeeds iff it requests no status, and the ticket stays completed |
| TicketService.FinalizeTicket | ticket-management-api/src/tickets/ticket.service.ts:182-198 | finalising succeeds iff the ticket is in_progress and then changes only the status to completed; a completed ticket gets "Ticket is already completed" |
| TicketService.FinalizeAgreesWithUpdate | ticket-management-api/src/tickets/ticket.service.ts:158-198 | finalising succeeds exactly when an update requesting completed succeeds, with the same result |
| TicketService.UpdateById | ticket-management-api/src/tickets/ticket.service.ts:158-159 | an unknown id fails with findById's NotFound before anything else, and a known one is updated |
| TicketService.FinalizeById | ticket-management-api/src/tickets/ticket.service.ts:182-183 | an unknown id fails with findById's NotFound, and a known one is finalised |
| TicketService.UpdatesMoveForward | ticket-management-api/src/tickets/ticket.service.ts:158-177 | saving an update keeps the ids, and every ticket's status keeps or raises its rank by at most one |
| TopicService.InsertByName | ticket-management-api/src/topics/topic.service.ts:16-21 | inserting a row by name adds exactly that row |
| TopicService.InsertKeepsSorted | ticket-management-api/src/topics/topic.service.ts:16-21 | inserting by name into a name-ordered list keeps it ordered by name |
| TopicService.ActiveAmongAdd | ticket-management-api/src/topics/topic.service.ts:16-21 | taking one more id adds its row once exactly when it is active |
| TopicService.ActiveTopics | ticket-management-api/src/topics/topic.service.ts:16-21 | the active topics are exactly the stored rows with isActive true: every such row is in the result and every result is such a row |
| TopicService.FindById | ticket-management-api/src/topics/topic.service.ts:26-30 | the lookup returns the row iff the id is stored, else null |
| TopicService.FindActiveById | ticket-management-api/src/topics/topic.service.ts:35-39 | the active lookup returns the row iff it is stored and active |
| TopicService.ActiveLookupIsRestriction | ticket-management-api/src/topics/topic.service.ts:26-39 | the active lookup finds a topic iff the plain lookup finds one that is active, and then returns the same row |
| TopicService.CreateTopic | ticket-management-api/src/topics/topic.service.ts:44-60 | creation succeeds iff no topic, active or inactive, has the name; the new topic has that name and is active; otherwise "Topic with name … already exists" |
| TopicService.CreateKeepsOthersAndDistinctNames | ticket-management-api/src/topics/topic.service.ts:44-60 | saving a created topic under a fresh id changes no existing row and keeps names pairwise distinct |
| TopicService.UpdateTopic | ticket-management-api/src/topics/topic.service.ts:65-90 | an unknown id raises NotFound; a known one fails iff it is renamed to a different name some topic holds; on success the name and isActive are the given ones or the old ones |
| TopicService.EmptyUpdateChangesNothing | ticket-management-api/src/topics/topic.service.ts:65-90 | an update with neither field returns the stored row and saves the same table |
| TopicService.RenameToTakenNameFails | ticket-management-api/src/topics/topic.service.ts:72-80 | renaming to another topic's name fails and nothing is saved, not even a supplied isActive |
| TopicService.RenameToOwnNameSucceeds | ticket-management-api/src/topics/topic.service.ts:72-87 | renaming to the topic's own name skips the uniqueness check and changes only isActive |
| TopicService.UpdateKeepsOthersAndDistinctNames | ticket-management-api/src/topics/topic.service.ts:65-90 | saving an update keeps the ids, changes no other row and keeps names pairwise distinct |
| TopicService.DeleteTopic | ticket-management-api/src/topics/topic.service.ts:97-107 | deletion succeeds iff the id is stored and removes exactly that row; otherwise it raises NotFound |
| TopicService.CascadeSetNull | ticket-management-api/src/entities/ticket.entity.ts:27-32 | the cascade keeps every ticket |
| TopicService.DeleteCascades | ticket-management-api/src/topics/topic.service.ts:97-107 | after a delete every ticket reference names an existing topic; exactly the references to the deleted topic are cleared; snapshots and all other columns are unchanged |
| Database.Store.CreateTicket | ticket-management-api/src/tickets/ticket.service.ts:31-43 | the new row is TicketService.CreateTicket under a fresh id, added with no other row changed, and the invariant holds |
| Database.Store.FindAllTickets | ticket-management-api/src/tickets/ticket.service.ts:62-90 | returns TicketService.FindAll of the current table |
| Database.Store.FindTicketById | ticket-management-api/src/tickets/ticket.service.ts:95-105 | returns TicketService.FindById of the current table |
| Database.Store.UpdateTicket | ticket-management-api/src/tickets/ticket.service.ts:158-177 | the result is TicketService.UpdateById and the table is saved only on success; topics are unchanged and the invariant, foreign key included, holds |
| Database.Store.FinalizeTicket | ticket-management-api/src/tickets/ticket.service.ts:182-198 | the result is TicketService.FinalizeById and the table is saved only on success; the invariant holds |
| Database.Store.FindActiveTopics | ticket-management-api/src/topics/topic.service.ts:16-21 | the loop returns the active topics, each once, ordered by name |
| Database.Store.FindTopicById | ticket-management-api/src/topics/topic.service.ts:26-30 | returns TopicService.FindById of the current table |
| Database.Store.FindActiveTopicById | ticket-management-api/src/topics/topic.service.ts:35-39 | returns TopicService.FindActiveById of the current table |
| Database.Store.CreateTopic | ticket-management-api/src/topics/topic.service.ts:44-60 | the result is TopicService.CreateTopic with the next id; the table is saved only on success; distinct names are preserved |
| Database.Store.UpdateTopic | ticket-management-api/src/topics/topic.service.ts:65-90 | the in-place rename and toggle give TopicService.UpdateTopic's result and table, and distinct names and the foreign key are preserved |
| Database.Store.DeleteTopic | ticket-management-api/src/topics/topic.service.ts:97-107 | an unknown id changes nothing; otherwise the topic is removed and the tickets become CascadeSetNull of the old tickets, keeping the invariant |
| AuthService.FindAccountBySid | ticket-management-api/src/auth/auth.service.ts:19-21 | finds an account with that sid iff one exists, and the account found is stored |
| AuthService.ActiveKeysOf | ticket-management-api/src/auth/auth.service.ts:28-30 | the loaded keys are exactly the stored keys of that account that are active |
| AuthService.CompareAll | ticket-management-api/src/auth/auth.service.ts:37-39 | one comparison result per key, each being bcrypt's compare of the presented key with that key's hash |
| AuthService.SomeTrue | ticket-management-api/src/auth/auth.service.ts:41 | `some` holds iff some result is true |
| AuthService.ValidateAccountAndApiKey | ticket-management-api/src/auth/auth.service.ts:17-46 | an unknown sid is refused with "Invalid account SID"; a known account without an active key with "No active API key found for this account"; one whose active keys all fail the comparison with "Invalid API key"; every refusal is Unauthorized; on success the account returned is the one found by sid |
| AuthService.ActiveComparison | ticket-management-api/src/auth/auth.service.ts:28-43 | the account has no active key iff the loaded list is empty, and some comparison succeeds iff an active key of the account matches |
| AuthService.ValidateIffActiveKeyMatches | ticket-management-api/src/auth/auth.service.ts:17-46 | validation succeeds iff the sid is known and some active key of that account has a hash the presented key matches |
| AuthService.InactiveKeysAreIgnored | ticket-management-api/src/auth/auth.service.ts:28-34 | an account with no active key is refused with "No active API key found for this account", even if an inactive key would match |
| AuthService.AccountFor | ticket-management-api/src/auth/auth.service.ts:58-65 | an existing account with the sid is reused with the table unchanged; otherwise one new account with that sid and name is appended |
| AuthService.NewKey | ticket-management-api/src/auth/auth.service.ts:68-76 | the new key row belongs to the account, is active, and stores only the hash of the plain key |
| AuthService.FindAfterAppend | ticket-management-api/src/auth/auth.service.ts:58-65 | after appending a row, the sid lookup finds the old match if there was one, else the appended row if it has the sid |
| AuthService.AccountForIsFound | ticket-management-api/src/auth/auth.service.ts:58-65 | the reused or created account has the sid, and looking the sid up afterwards finds it |
| AuthService.CreatedKeyValidates | ticket-management-api/src/auth/auth.service.ts:17-81 | round trip: after the account and key are created, validating the same sid and plain key succeeds with that account, given that compare accepts a key against its own hash |
| AuthService.CreateKeepsTables | ticket-management-api/src/entities/account.entity.ts:15-16 | creating the account and key keeps sids unique and every key owned by an existing account |
| AuthService.CredentialStore.CreateAccountWithApiKey | ticket-management-api/src/auth/auth.service.ts:52-82 | the account table becomes AccountFor's, exactly one new active key row is appended with the old rows unchanged, the plain key is returned, and sids stay unique |
| AuthGuard.Capitalized | ticket-management-api/src/auth/auth.guard.ts:45 | the capitalised variant upper-cases the first character and lower-cases the rest, keeping the length |
| AuthGuard.Candidates | ticket-management-api/src/auth/auth.guard.ts:32-53 | the four names tried are, in order, the lower-case name, the name as given, the upper-case name and the capitalised name |
| AuthGuard.FirstTruthy | ticket-management-api/src/auth/auth.guard.ts:32-53 | no value is found iff no candidate header is present with a non-empty value |
| AuthGuard.FirstTruthyIsFirst | ticket-management-api/src/auth/auth.guard.ts:32-53 | a found value is non-empty and is the value of the first candidate whose header is non-empty |
| AuthGuard.GetHeader | ticket-management-api/src/auth/auth.guard.ts:32-53 | the two direct lookups and the loop over the variations return the first non-empty candidate value, else undefined |
| AuthGuard.MissingHeaders | ticket-management-api/src/auth/auth.guard.ts:59-62 | a header is listed iff it is missing, x-account-sid first |
| AuthGuard.Decide | ticket-management-api/src/auth/auth.guard.ts:18-87 | a public route is granted without an account; every denial is Unauthorized |
| AuthGuard.CheckCredentials | ticket-management-api/src/auth/auth.guard.ts:55-86 | every denial after the header lookup is Unauthorized |
| AuthGuard.PublicIgnoresHeaders | ticket-management-api/src/auth/auth.guard.ts:20-27 | a public route gets the same decision whatever the headers and the credential tables hold |
| AuthGuard.GrantedIffValidated | ticket-management-api/src/auth/auth.guard.ts:55-86 | a protected request is granted iff both headers are found and the trimmed pair validates; the attached account is the validated one; a missing header gives the missing-headers message |
| AuthGuard.MissingHeaderLists | ticket-management-api/src/auth/auth.guard.ts:59-66 | both missing gives "x-account-sid, x-api-key"; each one missing alone names only itself |
| AuthGuard.EmptyValueIsMissing | ticket-management-api/src/auth/auth.guard.ts:35-52 | a header whose every variant is absent or empty is not found |
| AuthGuard.BlankValueReachesValidation | ticket-management-api/src/auth/auth.guard.ts:59-81 | a whitespace-only sid passes the presence check and is validated as the empty string |
| AuthGuard.CanActivate | ticket-management-api/src/auth/auth.guard.ts:18-87 | returns true or raises exactly as Decide says, and attaches the validated account to the request only on a granted protected request |
| MigrateTopics.FindByName | ticket-management-api/src/scripts/migrate-topics.ts:39 | finds a topic with the name iff one exists, and the topic found is one of the rows read |
| MigrateTopics.Seed | ticket-management-api/src/scripts/migrate-topics.ts:37-54 | the seeding of the given defaults in order: at most one topic is created per default, and the created topics take consecutive ids from the next free id |
| MigrateTopics.SeedDefaultTopics | ticket-management-api/src/scripts/migrate-topics.ts:29-54 | the seeding loop creates exactly the topics, and fills exactly the map, that Seed describes for the four defaults in order |
| MigrateTopics.SeedCreatesOnlyMissing | ticket-management-api/src/scripts/migrate-topics.ts:37-51 | every created topic is active and has a name that no topic read before seeding has |
| MigrateTopics.SeedCoversDefaults | ticket-management-api/src/scripts/migrate-topics.ts:37-54 | after seeding, every default name is held by a topic read before or one created |
| MigrateTopics.SeedIsIdempotent | ticket-management-api/src/scripts/migrate-topics.ts:37-51 | running the seeding again over the topics the first run left creates nothing |
| MigrateTopics.SeedNothingWhenPresent | ticket-management-api/src/scripts/migrate-topics.ts:39-51 | when every default name is already held, seeding creates nothing |
| MigrateTopics.SeedMapsEveryDefault | ticket-management-api/src/scripts/migrate-topics.ts:37-54 | the map has an entry for each default, holding a topic with that default's name, and no other entries |
| MigrateTopics.SeedMapsLegacyTopics | ticket-management-api/src/scripts/migrate-topics.ts:30-35 | after seeding, billing, bug, feature and other map to topics named Billing, Bug Report, Feature Request and General Inquiry |
| MigrateTopics.DefaultWithId | ticket-management-api/src/scripts/migrate-topics.ts:92 | finds a mapped topic with the id iff the map has one, searching the entries in enum order |
| MigrateTopics.SnapshotName | ticket-management-api/src/scripts/migrate-topics.ts:84-103 | a live joined topic name wins; otherwise, for a topic id, the name of a mapped default topic with that id, else "Topic <id>"; with no id, the mapped other topic's name when it has one, else "General Inquiry" |
| MigrateTopics.SnapshotNameNonEmpty | ticket-management-api/src/scripts/migrate-topics.ts:84-112 | when the mapped topics have names, every rule yields a non-empty name, so every selected ticket is updated |
| MigrateTopics.Backfilled | ticket-management-api/src/scripts/migrate-topics.ts:72-113 | the backfill keeps every ticket |
| MigrateTopics.BackfillOnlyFillsMissing | ticket-management-api/src/scripts/migrate-topics.ts:72-112 | only a missing snapshot is filled, an existing one is never overwritten, no other column changes, and with named mapped topics every ticket ends with a snapshot |
| MigrateTopics.SeedKeepsNames | ticket-management-api/src/scripts/migrate-topics.ts:30-54 | with non-empty default names, every mapped topic has a non-empty name |
| MigrateTopics.BackfillAfterSeeding | ticket-management-api/src/scripts/migrate-topics.ts:99-103 | after the real seeding, every row gets a non-empty name, and a row with neither a topic name nor a topic id gets "General Inquiry" |
| MigrateTopics.Backfill | ticket-management-api/src/scripts/migrate-topics.ts:63-115 | without the snapshot column nothing changes and the count is 0; otherwise the table becomes Backfilled and the count is the number of selected rows when the mapped names are non-empty |
| MigrateTopics.BackfillStep | ticket-management-api/src/scripts/migrate-topics.ts:83-112 | one pass of the loop body fills the next selected row and leaves the progress invariant true |
| MigrateTopics.BackfillSelected | ticket-management-api/src/scripts/migrate-topics.ts:82-113 | the loop gives each selected row its backfilled value, leaves all other rows as they were, and counts one update per row when the mapped names are non-empty |
| ClientTypes.ParseRole | v0-uix-ticket-qf/lib/types.ts:1 | a string names a role exactly when it is requester, assignee or admin, and parsing returns the role with that string |
| ClientTypes.RolesAreExact | v0-uix-ticket-qf/lib/types.ts:1 | there are exactly three roles, their strings are distinct, and each parses back to itself |
| ClientApi.ClientTopic | v0-uix-ticket-qf/lib/api.ts:231-236 | a server topic keeps its id and name, takes the given organization, and is active unless isActive is exactly false |
| ClientApi.TopicNameOf | v0-uix-ticket-qf/lib/api.ts:28 | a truthy server topicName wins, then a non-empty live topic name, then "Topic " followed by the truthy topic id or "Unknown"; the result is never empty |
| ClientApi.LiveOrPlaceholder | v0-uix-ticket-qf/lib/api.ts:30-47 | there is a topic iff the server sent one or a truthy topicId |
| ClientApi.EncodeDescription | v0-uix-ticket-qf/lib/api.ts:140 | the stored description is as long as the title, the blank-line separator and the description together; DescriptionRoundTrip is its inverse |
| ClientApi.SplitDescription | v0-uix-ticket-qf/lib/api.ts:49-62 | with a blank line the title is the text before the first one ("Untitled Ticket" if empty) and the description the text up to the next one, or the whole text when that piece is empty; without one the description is kept whole and the title is the first line, cut to 50 characters and "..." when longer; a missing or empty text gives ("Untitled Ticket", "") |
| ClientApi.TransformTicket | v0-uix-ticket-qf/lib/api.ts:21-87 | the ticket keeps id, requester id, status and priority; the requester name is the server's when truthy, else "User <requesterId>"; title and description come from SplitDescription; assigneeId and an assignee named "Agent <id>" are present iff the assignee id is truthy; there is always a topic: the live one, an inactive placeholder with the topic id, or an inactive fallback with id 0, each named by TopicNameOf; the topicId is the server's when truthy and otherwise the shown topic's id |
| ClientApi.SeparatorAfterTitle | v0-uix-ticket-qf/lib/api.ts:54-55 | in an encoded description whose title has no line break, the first blank line is the one after the title |
| ClientApi.DescriptionRoundTrip | v0-uix-ticket-qf/lib/api.ts:49-62 | a non-empty title with no line break and a non-empty description with no blank line come back unchanged after encoding and decoding |
| ClientApi.DescriptionTruncatedAtBlankLine | v0-uix-ticket-qf/lib/api.ts:54-57 | a description that holds a blank line comes back cut at it, strictly shorter, because split with a limit of 2 drops the rest; when the cut piece is empty the whole stored text is shown |
| ClientApi.TicketsQuery | v0-uix-ticket-qf/lib/api.ts:90-99 | a truthy requester name is the only parameter; otherwise a truthy requester id is; otherwise there is none |
| ClientApi.NameQueryReachesFindAll | v0-uix-ticket-qf/lib/api.ts:95-96 | the name query passes the server's query validation and becomes exactly its requester-name filter |
| ClientApi.IdQueryReachesFindAll | v0-uix-ticket-qf/lib/api.ts:97-98 | a positive requester id, sent without a name, passes validation and becomes exactly the requester-id filter |
| ClientApi.NegativeIdQueryIsRefused | v0-uix-ticket-qf/lib/api.ts:97-98 | a negative requester id, sent without a name, is refused by the server's query validation |
| ClientApi.EmptyQueryListsEverything | v0-uix-ticket-qf/lib/api.ts:90-99 | with neither argument the query is valid and gives no filter at all |
| ClientApi.CreateTicketBody | v0-uix-ticket-qf/lib/api.ts:140-149 | the body has exactly requester_id, requester_name, topic_id, priority and description; the name is trimmed and the description is encoded |
| ClientApi.CreateTicketBodyIsRefused | v0-uix-ticket-qf/lib/api.ts:143-149 | the server's create-ticket validation refuses every body the client builds, naming topic_id (undeclared) and topic (missing) |
| ClientApi.UpdateTicketBody | v0-uix-ticket-qf/lib/api.ts:193-199 | status is sent iff it is non-empty and assignee_id iff it is given, with the given values and only properties the server's update validation declares |
| ClientApi.CreateTopicBody | v0-uix-ticket-qf/lib/api.ts:257-259 | the body is exactly the name |
| ClientApi.UpdateTopicBody | v0-uix-ticket-qf/lib/api.ts:287-293 | name is sent iff given and active is sent as isActive iff given, with the given values and only properties the server's topic update validation declares |
| ClientApi.UpdateTopicBodyIsAccepted | v0-uix-ticket-qf/lib/api.ts:283-299 | a topic update body whose name, if any, has 1 to 100 characters passes the server's validation, which then holds exactly the given name and active flag |
| ClientApi.CountStatus | v0-uix-ticket-qf/lib/api.ts:346-348 | a status count never exceeds the number of tickets |
| ClientApi.Stats | v0-uix-ticket-qf/lib/api.ts:340-350 | the dashboard counts: the total is the number of tickets, each status count is CountStatus, and the three counts add up to the total |
| ClientApi.StatsAddUp | v0-uix-ticket-qf/lib/api.ts:340-350 | each ticket is counted under exactly one status, so the three counts add up to the total |
| ClientApi.CountStatusAppend | v0-uix-ticket-qf/lib/api.ts:346-348 | counting distributes over concatenation |
| MockApi.FirstIndex | v0-uix-ticket-qf/lib/mock-api.ts:87 | `find` returns the first index whose element matches, and none only when no element does |
| MockApi.TicketLookupByPosition | v0-uix-ticket-qf/lib/mock-api.ts:108 | while ticket ids are their position plus one, ids are distinct and `find` by id lands on position id - 1 |
| MockApi.TopicLookupByPosition | v0-uix-ticket-qf/lib/mock-api.ts:154 | while topic ids are their position plus one, ids are distinct and `find` by id lands on position id - 1 |
| MockApi.TopicById | v0-uix-ticket-qf/lib/mock-api.ts:79 | the looked-up topic is stored and carries the id; no topic only when none carries it |
| MockApi.Enrich | v0-uix-ticket-qf/lib/mock-api.ts:90-94 | a read changes only topic and assignee: the topic with the ticket's topic id, and an assignee iff the assignee id is truthy |
| MockApi.EnrichAll | v0-uix-ticket-qf/lib/mock-api.ts:77-81 | the result has one ticket per stored ticket, in order, each enriched by Enrich |
| MockApi.ByRequester | v0-uix-ticket-qf/lib/mock-api.ts:72-74 | a truthy requester id keeps exactly that requester's tickets; a falsy one keeps every ticket |
| MockApi.Updated | v0-uix-ticket-qf/lib/mock-api.ts:134-135 | a truthy status and a given assignee id overwrite the stored ones and nothing else changes |
| MockApi.UpdateSkipsLifecycle | v0-uix-ticket-qf/lib/mock-api.ts:134 | the stand-in reopens a completed ticket and starts one without an assignee, both moves the server refuses |
| MockApi.MockStore.FetchTickets | v0-uix-ticket-qf/lib/mock-api.ts:66-82 | the result is the requester's stored tickets, enriched, in stored order |
| MockApi.MockStore.FetchTicket | v0-uix-ticket-qf/lib/mock-api.ts:84-95 | null iff no stored ticket has the id; otherwise the first one with it, enriched |
| MockApi.MockStore.CreateTicket | v0-uix-ticket-qf/lib/mock-api.ts:97-126 | appends a created ticket with id count + 1 and the given fields, returns it with its topic, and keeps ids equal to positions plus one |
| MockApi.MockStore.UpdateTicket | v0-uix-ticket-qf/lib/mock-api.ts:128-143 | an unknown id fails with "Ticket not found" and changes nothing; otherwise only the found ticket is replaced by Updated and returned enriched |
| MockApi.MockStore.FetchTopics | v0-uix-ticket-qf/lib/mock-api.ts:145-148 | every stored topic, in order |
| MockApi.MockStore.CreateTopic | v0-uix-ticket-qf/lib/mock-api.ts:150-162 | appends an active topic with id count + 1 and returns it; tickets are unchanged |
| MockApi.MockStore.UpdateTopic | v0-uix-ticket-qf/lib/mock-api.ts:164-174 | an unknown id fails with "Topic not found"; otherwise a truthy name and a given active flag overwrite the found topic only |
| MockApi.MockStore.FetchTicketStats | v0-uix-ticket-qf/lib/mock-api.ts:176-191 | the counts of the requester's tickets, which add up to their total |
| TicketDetail.AvailableStatuses | v0-uix-ticket-qf/components/ticket-detail-modal.tsx:105-116 | the menu starts with the current status and offers nothing behind it or more than one step ahead |
| TicketDetail.MenuMatchesServer | v0-uix-ticket-qf/components/ticket-detail-modal.tsx:105-116 | a status other than the current one is offered iff the server's lifecycle accepts the move for an assigned ticket |
| TicketDetail.OfferedMovesAreAccepted | v0-uix-ticket-qf/components/ticket-detail-modal.tsx:105-116 | every offered move is accepted by the server, starting a ticket provided it has an assignee |
| TicketDetail.CanManage | v0-uix-ticket-qf/components/ticket-detail-modal.tsx:101 | the status controls are shown iff a user is signed in and is not a requester |
| TicketDetail.IsReadOnly | v0-uix-ticket-qf/components/ticket-detail-modal.tsx:102 | the modal is read-only iff a user is signed in who cannot manage tickets |
| TicketDetail.ManageXorReadOnly | v0-uix-ticket-qf/components/ticket-detail-modal.tsx:101-102 | a signed-in user either manages tickets or only reads them, never both; without a user, neither |
| TicketDetail.OwnAssigneeId | v0-uix-ticket-qf/components/ticket-detail-modal.tsx:78-80 | an assignee id is attached iff the user is an assignee with a truthy stored id, and it is that id |
| TicketDetail.StatusUpdateRequest | v0-uix-ticket-qf/components/ticket-detail-modal.tsx:64-82 | a request is sent iff there is a ticket and a chosen status different from its own; it carries that status and OwnAssigneeId |
| TicketDetail.CompletedSendsNothing | v0-uix-ticket-qf/components/ticket-detail-modal.tsx:65 | no status picked from a completed ticket's menu sends a request |
| TicketDetail.RequestBody | v0-uix-ticket-qf/components/ticket-detail-modal.tsx:73-82 | the body always holds a status and only properties the server's update validation declares |
| TicketDetail.AssigneeUpdateSucceeds | v0-uix-ticket-qf/components/ticket-detail-modal.tsx:64-84 | an assignee with a stored id who picks a move from the menu gets it validated and applied by the server: the ticket takes that status and that assignee and nothing else changes |
| TicketDetail.AdminStartWithoutAssigneeFails | v0-uix-ticket-qf/components/ticket-detail-modal.tsx:73-82 | the menu offers an admin "in progress" for an unassigned ticket, but the body carries no assignee and the server refuses the move |
| TicketDetail.UpdateEnabled | v0-uix-ticket-qf/components/ticket-detail-modal.tsx:230 | the Update button is never enabled during an update; with a status chosen, it is enabled iff no update runs and a click would send a request |
| TicketDetail.DetailModal.ShowTicket | v0-uix-ticket-qf/components/ticket-detail-modal.tsx:36-40 | showing a ticket selects its own status and changes nothing else |
| TicketDetail.DetailModal.SelectStatus | v0-uix-ticket-qf/components/ticket-detail-modal.tsx:209-211 | choosing a status changes only the selection |
| TicketDetail.DetailModal.LoadTicket | v0-uix-ticket-qf/components/ticket-detail-modal.tsx:42-62 | without a truthy id nothing changes; otherwise the loaded ticket is shown with its status selected, or the error is "Ticket not found" or "Failed to load ticket details", and loading ends false |
| TicketDetail.DetailModal.HandleStatusUpdate | v0-uix-ticket-qf/components/ticket-detail-modal.tsx:64-99 | sends exactly StatusUpdateRequest; with no request nothing changes; on success the answer is shown with "Status updated successfully", on failure the ticket stays and the error is "Failed to update ticket status"; updating ends false |
| Dashboard.FilterTickets | v0-uix-ticket-qf/app/dashboard/page.tsx:74-90 | the filter effect: a ticket is shown iff it was loaded and passes every filter that is not "all", and the list never grows |
| Dashboard.StepsAreFilters | v0-uix-ticket-qf/app/dashboard/page.tsx:77-87 | each conditional filter step keeps exactly the tickets that pass that filter alone, "all" keeping every ticket |
| Dashboard.FilterIsMatching | v0-uix-ticket-qf/app/dashboard/page.tsx:74-90 | the three successive filters are one filter by all three conditions together |
| Dashboard.FilterKeepsMatchingInOrder | v0-uix-ticket-qf/app/dashboard/page.tsx:74-90 | a ticket is shown iff it was loaded and passes every filter, and the shown list keeps the loaded order |
| Dashboard.NoFiltersShowEverything | v0-uix-ticket-qf/app/dashboard/page.tsx:74-90 | with every filter on "all" the loaded list is shown unchanged |
| Dashboard.AssignedTickets | v0-uix-ticket-qf/app/dashboard/page.tsx:93-95 | a ticket is listed iff the user is an assignee with a truthy stored id and the ticket is shown and assigned to that id |
| Dashboard.UnassignedTickets | v0-uix-ticket-qf/app/dashboard/page.tsx:97-99 | a ticket is listed iff the user is an assignee and the ticket is shown and has no truthy assignee id |
| Dashboard.AssigneeSplit | v0-uix-ticket-qf/app/dashboard/page.tsx:92-99 | the assigned and unassigned lists are disjoint and drawn from the shown tickets; a shown ticket is in neither only when assigned to someone else; other roles get two empty lists |
| Dashboard.LoadArguments | v0-uix-ticket-qf/app/dashboard/page.tsx:48-54 | no requester id is ever sent; a requester name is sent iff the user is a requester with a truthy stored name, and it is that name |
| Dashboard.LoadedTicketsOnServer | v0-uix-ticket-qf/app/dashboard/page.tsx:43-61 | the server validates the dashboard's query and lists exactly the tickets with the requester's stored name, or every ticket for the other roles |
| Dashboard.ActiveTopics | v0-uix-ticket-qf/app/dashboard/page.tsx:66 | the topic filter holds exactly the active topics, in their order |
| Settings.AppendTopic | v0-uix-ticket-qf/app/settings/page.tsx:91 | the created topic is added at the end and the earlier topics are kept in place |
| Settings.ReplaceById | v0-uix-ticket-qf/app/settings/page.tsx:120 | every topic with the answer's id is replaced by the answer, every other topic is kept, and ids and length are unchanged |
| Settings.RemoveById | v0-uix-ticket-qf/app/settings/page.tsx:176 | exactly the topics without the deleted id remain, in their order |
| Settings.ReplaceIsIdempotent | v0-uix-ticket-qf/app/settings/page.tsx:120 | showing the same answer twice is the same as showing it once |
| Settings.ReplaceShowsAnswer | v0-uix-ticket-qf/app/settings/page.tsx:143 | an answer whose id is listed is shown; one whose id is not listed changes nothing |
| Settings.RemoveUndoesAppend | v0-uix-ticket-qf/app/settings/page.tsx:91-176 | deleting a just-created topic with a fresh id restores the earlier list |
| Settings.SettingsGate | v0-uix-ticket-qf/app/settings/page.tsx:43-57 | topics are loaded iff the user is an admin; a visitor without a user goes home and any other user to the dashboard |
| Settings.SettingsPage.Open | v0-uix-ticket-qf/app/settings/page.tsx:43-77 | the gate decides; an admin's page ends loading with the fetched topics, or the old ones if the fetch fails |
| Settings.SettingsPage.EditNewName | v0-uix-ticket-qf/app/settings/page.tsx:79-92 | typing in the create dialog changes only the new name |
| Settings.SettingsPage.HandleCreateTopic | v0-uix-ticket-qf/app/settings/page.tsx:79-109 | a request with the typed name is sent iff there is a user and the name is not blank; on success the answer is appended, the name cleared and the dialog closed; on failure nothing shown changes; submitting ends false |
| Settings.SettingsPage.OpenEditDialog | v0-uix-ticket-qf/app/settings/page.tsx:159-163 | the topic is selected, its name fills the rename field and the rename dialog opens |
| Settings.SettingsPage.EditName | v0-uix-ticket-qf/app/settings/page.tsx:111-118 | typing in the rename dialog changes only the edited name |
| Settings.SettingsPage.HandleEditTopic | v0-uix-ticket-qf/app/settings/page.tsx:111-138 | a rename of the selected topic is sent iff one is selected and the name is not blank; on success the answer replaces the topic with its id, the selection is cleared and the dialog closed; on failure nothing shown changes |
| Settings.SettingsPage.HandleToggleActive | v0-uix-ticket-qf/app/settings/page.tsx:140-157 | the opposite of the shown flag is sent, and only a successful answer replaces the topic with its id |
| Settings.SettingsPage.OpenDeleteDialog | v0-uix-ticket-qf/app/settings/page.tsx:165-168 | the topic is selected and the delete dialog opens |
| Settings.SettingsPage.HandleDeleteTopic | v0-uix-ticket-qf/app/settings/page.tsx:170-194 | the selected topic's id is sent iff one is selected; on success that id is removed from the list, the selection cleared and the dialog closed; on failure nothing shown changes; deleting ends false |
| CreateTicketPage.StoredName | v0-uix-ticket-qf/app/tickets/create/page.tsx:68-70 | a stored name is used iff the user is a requester with a truthy stored name, and it is that name |
| CreateTicketPage.CheckedName | v0-uix-ticket-qf/app/tickets/create/page.tsx:68-70 | the name the submit checks: the stored name, which is never empty, when there is one, and otherwise the typed name trimmed |
| CreateTicketPage.HandleSubmit | v0-uix-ticket-qf/app/tickets/create/page.tsx:62-123 | nothing happens without a user; otherwise exactly the first failing check among name, title, topic and description gives its message, and a form that passes all four is sent with its title, description and priority, parseInt of the topic id, the user's id and the stored name or the typed one |
| CreateTicketPage.StoredNameWins | v0-uix-ticket-qf/app/tickets/create/page.tsx:112-114 | with a stored name, whatever is typed in the name field changes nothing, and the ticket is filed under the stored name |
| CreateTicketPage.TypedNameReachesServerTrimmed | v0-uix-ticket-qf/app/tickets/create/page.tsx:68-117 | a typed name is checked trimmed and sent as typed, and the request body trims it, so the server receives exactly the non-empty name that was checked |
| CreateTicketPage.SelectedTopicIsSent | v0-uix-ticket-qf/app/tickets/create/page.tsx:119 | choosing a topic option, whose value is the id as decimal text, sends exactly that topic's id |
| CreateTicketPage.SubmittedTicketReadsBack | v0-uix-ticket-qf/app/tickets/create/page.tsx:116-123 | a submitted title with no line break and description with no blank line come back unchanged when the ticket is read |
| CreateTicketPage.SubmittedTicketIsRefused | v0-uix-ticket-qf/app/tickets/create/page.tsx:116-123 | every ticket the form submits is refused by the server's create-ticket validation |
| AssigneeIdDialog.ValidateAssigneeId | v0-uix-ticket-qf/components/assignee-id-dialog.tsx:37-47 | the text is accepted iff parseInt of its trimmed form is a positive integer, which is the id confirmed; blank text, and only blank text, is "required"; every other refusal is "must be a positive number" |
| AssigneeIdDialog.AcceptsDecimal | v0-uix-ticket-qf/components/assignee-id-dialog.tsx:37-49 | the decimal text of a positive id, alone or followed by text that starts with a non-digit, is accepted as that id |
| AssigneeIdDialog.RefusesNegative | v0-uix-ticket-qf/components/assignee-id-dialog.tsx:44-47 | a minus sign followed by a decimal number is refused as not positive |
| AssigneeIdDialog.RefusesZero | v0-uix-ticket-qf/components/assignee-id-dialog.tsx:44-47 | "0" is refused as not positive |
| AssigneeIdDialog.HandleClose | v0-uix-ticket-qf/components/assignee-id-dialog.tsx:26-31 | the dialog cancels only when it is being closed; the requester-name dialog (requester-name-dialog.tsx:26-31) closes by the same rule |
| AssigneeIdDialog.AssigneeIdDialogState.Edit | v0-uix-ticket-qf/components/assignee-id-dialog.tsx:70-73 | typing replaces the text and clears the error |
| AssigneeIdDialog.AssigneeIdDialogState.HandleSubmit | v0-uix-ticket-qf/components/assignee-id-dialog.tsx:33-51 | a valid id is confirmed and the field cleared; otherwise nothing is confirmed, the text stays and the check's message is shown |
| RequesterNameDialog.ValidateRequesterName | v0-uix-ticket-qf/components/requester-name-dialog.tsx:37-47 | the name is accepted iff its trimmed form has at least two characters, and the trimmed form is confirmed; blank text is "required" and a single character "at least 2 characters" |
| RequesterNameDialog.ConfirmedNameIsStable | v0-uix-ticket-qf/components/requester-name-dialog.tsx:37-49 | a confirmed name passes the check again unchanged |
| RequesterNameDialog.ConfirmedNameIsUsed | v0-uix-ticket-qf/components/requester-name-dialog.tsx:49 | once stored, a confirmed name passes the new-ticket form's name check and is the name the dashboard loads tickets for |
| RequesterNameDialog.RequesterNameDialogState.Edit | v0-uix-ticket-qf/components/requester-name-dialog.tsx:70-73 | typing replaces the text and clears the error |
| RequesterNameDialog.RequesterNameDialogState.HandleSubmit | v0-uix-ticket-qf/components/requester-name-dialog.tsx:33-51 | a valid name is confirmed trimmed and the field cleared; otherwise nothing is confirmed, the text stays and the check's message is shown |
| DeleteTopicDialog.IsConfirmed | v0-uix-ticket-qf/components/delete-topic-dialog.tsx:33 | a confirmed text has exactly the length of "delete" |
| DeleteTopicDialog.DeleteEnabled | v0-uix-ticket-qf/components/delete-topic-dialog.tsx:96 | the Delete button is enabled iff no delete runs and the text spells "delete" in any mix of upper and lower case |
| DeleteTopicDialog.ConfirmedIffAnyCase | v0-uix-ticket-qf/components/delete-topic-dialog.tsx:33 | the deletion is confirmed iff the text spells "delete" in any mix of upper and lower case |
| DeleteTopicDialog.DeleteTopicDialogState.Edit | v0-uix-ticket-qf/components/delete-topic-dialog.tsx:32 | typing replaces the text |
| DeleteTopicDialog.DeleteTopicDialogState.HandleConfirm | v0-uix-ticket-qf/components/delete-topic-dialog.tsx:35-40 | the deletion goes ahead iff the text is confirmed, and only then is the text cleared |
| DeleteTopicDialog.DeleteTopicDialogState.HandleCancel | v0-uix-ticket-qf/components/delete-topic-dialog.tsx:42-45 | cancelling clears the text |
| DeleteTopicDialog.DeleteTopicDialogState.OnOpenChange | v0-uix-ticket-qf/components/delete-topic-dialog.tsx:48 | closing cancels and clears the text; opening changes nothing |

## Left out

- Timestamps: `createdAt` and `updatedAt` come from the database clock or `new Date()`, and date formatting is display only. Neither is modelled.
- bcrypt: `hash` and `compare` are a pair of functions given as a parameter, not an algorithm. The round trip assumes that `compare` accepts a key against its own hash (`Sound`). Salt rounds and timing are not modelled.
- `Promise.all` over the key comparisons becomes "some active key matches".
- Network: `fetch`, HTTP status handling, error-message extraction and the client's `topicsCache` fallback are not modelled. A server answer is a parameter of each page handler, `Ok` or `Err`.
- Concurrency: the unlocked read-modify-write in `updateTicket` and `updateTopic` is not modelled. Each operation is atomic here.
- SQL and ORM mechanics are not modelled: repositories, the query builder, PRAGMA checks and raw UPDATEs. Tables are maps keyed by id, or sequences in id order. Column widths are not checked at write time.
- A JSON `null` name or isActive in a topic update passes the DTO validation. What the service then saves depends on the ORM and the column's NOT NULL constraint, so `TopicService.UpdateTopic` takes only absent or given values.
- `Number()` and `parseInt` are modelled on decimal integer text. Fractions, exponents, hexadecimal, `Infinity` and signs other than a leading `-` or `+` give no number here.
- A `NaN` topic id from the new-ticket form is `None`.
- `toLowerCase` and `toUpperCase` map ASCII letters only.
- String length counts characters, not UTF-16 code units.
- Ordering: the active topics are sorted by name with code-point comparison. Database collation and the order among equal names are not modelled.
- Headers are single strings. A header given several times (an array value in Node) is not modelled.
- The controllers, `ParseIntPipe`, Swagger metadata, Nest modules and `main.ts` bootstrap are not modelled. Of the bootstrap, only the global validation pipe is kept, as the DTO validators.
- The DTO validators return the set of offending property names, not class-validator's messages.
- The diagnostic and seeding scripts are not modelled: check-db-connection, check-account and seed-account.
- MigrateTopics: the script's console output and its steps after the backfill are not modelled.
- The mock store's `setTimeout` delays are not modelled.
- UI rendering is not modelled: toasts, router navigation, the badges, the app header and the landing page's role table.
- The user context's localStorage persistence is not modelled. The user is a parameter.
- CreateTicketPage: the form's field edits, its `loading` flag and the requester-name pre-fill are not modelled as state.
- CreateTicketPage: the read-only name field for requesters is not modelled.
- CreateTicketPage: the topic menu's active filter is the same expression as `Dashboard.ActiveTopics` and is not repeated.
- DeleteTopicDialog: the disabled input while a delete runs is not modelled. The button rule is the predicate `DeleteEnabled`.
- ClientApi.StatsAddUp: statuses are a closed datatype here, so the counts always add up to the total. The case of an unknown status string, where they add up to less, does not arise.
- Dtos.Json: JSON numbers in request bodies are integers. `@IsNumber() @Min(1)` also accepts a fractional `requester_id` or `assignee_id` such as 1.5, and the service would store it. That case is not modelled.
- MockApi: the mock's `as any` casts are not modelled. The priority and status strings it stores are narrowed to the enumerations, so a mock ticket cannot hold a string outside them.
- ClientApi.NewTicket keeps the priority as the form's string, as the form sends it.
- AssigneeIdDialog.HandleClose states only that cancelling happens on close, for both dialogs. Whether a cancel handler was given is a parameter.
- ClientApi.Stats: statuses are a closed datatype here, so the three counts always add up to the total, as for StatsAddUp.
- AuthGuard: the guard's `console.log` and `console.error` lines are not modelled. They change no outcome.
- TicketDetail.DetailModal.HandleStatusUpdate: the `setTimeout` that clears the success message after 2 seconds is not modelled. Neither is the `onTicketUpdated` callback to the page; both run after the state the method states.
- TicketDetail: the modal's `console.error` lines are not modelled.
- MockApi: the mock hands out shared objects (`return topic`, and `[...mockTopics]` copies only the array), so a caller that mutates a returned topic changes the store. The model returns values, so that aliasing is not captured.
- Numbers are unbounded integers. `parseInt` and JavaScript numbers lose precision above 2^53, and ids that large are not modelled.
