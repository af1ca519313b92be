# Gift registry: data layer and client rules

A model of the gift-registry application (rusty-gifts): a REST server over an SQLite
database of users and gift ideas, and a single-page client with routing, a session
and two forms. The model covers:

- **The database tables** (`Store`): the `gift_ideas` and `users` tables as classes
  holding their rows in scan order plus the rowid the next insert receives. The
  invariant `Valid()` says the primary key strictly ascends and stays below that
  rowid. Each table method is one Diesel statement (insert, update-set, delete).
  The `Sql` module gives those statements their meaning on a sequence of rows:
  `.filter(..).first()`, `update(..).set(..)`, `delete(..)` and the row count
  `execute` reports.
- **The repositories**: `GiftIdeaActions` (`server/src/gift_idea_actions.rs`),
  `GiftActions` (`server/src/gift_actions.rs`, the module the HTTP handlers call) and
  `UserActions` (`server/src/user_actions.rs`). Each action is the same statement
  sequence as the source: reserve and unreserve read the row, set one field, write the
  whole row back and re-read it. The reservation state machine (Open or
  Reserved(uid)) is `GiftIdeaActions.Reservation`.
- **The records** (`Models`, `Shared`): entity, insert and request/response records and
  the conversions between them (`server/src/models.rs`).
- **The client**: routes (`Routes`), the session (`Session`), page titles and the
  navigation highlight (`Pages`), and the register and add-gift-idea forms
  (`RegisterPage`, `AddGiftIdeaPage`). The form pages are classes whose `Update`
  method changes the form in place and returns the request or navigation it triggers.
  `IntParse` models the `parse::<i32>` the recipient select relies on.

Where the files disagree, the model follows the code that defines the behaviour:

- The gift-idea record comes from `server/src/models.rs:110-122`. `server/src/schema.rs`
  and `shared/src/lib.rs` describe an older layout (`name`, `intended_for_user_id`).
- `server/src/gift_actions.rs:16` re-reads by `name`, the older schema's name for the
  column the entity calls `title`. The model reads it as `title`.
- `client/src/page.rs:89-90,113-115` and `client/src/lib.rs:153,159` use a route
  `AddGiftIdea` and a `Profile` route without a username. `client/src/route.rs:9-16`
  declares neither. `Pages.NavRoute` is the route set the navigation code is written
  against: the routes of `route.rs` plus `AddGiftIdea`, with `Profile` taken without
  its username.
- Whether `users.email` is UNIQUE cannot be seen in `server/src/schema.rs`, so the
  model's insert always succeeds, and the user `add` returns the first row with that email.
- The user `update` is keyed by email (`server/src/user_actions.rs:32`), not by id.
- `init` in `client/src/page/add_gift_idea.rs:52-65` ignores its `session` argument and
  rebuilds the session from local storage. `AddGiftIdeaPage.Model.Init` does the same.

## Model

| member | source | states |
|---|---|---|
| `Sql.First` | server/src/gift_idea_actions.rs:25 | `.filter(p).first().optional()` is `None` exactly when no row satisfies `p`; otherwise it is a row satisfying `p` with no satisfying row before it |
| `Sql.Count` | server/src/gift_idea_actions.rs:58 | the affected-row count `execute` reports: at most the table size, zero exactly when no row matches, and (through `DeleteWhere`'s size equation and multiplicities) the number of matching rows |
| `Sql.UpdateWhere` | server/src/gift_idea_actions.rs:64 | an update-set rewrites every matching row by the changeset, leaves every other row, and keeps the row count |
| `Sql.DeleteWhere` | server/src/gift_idea_actions.rs:58 | a delete keeps every non-matching row as often as it occurred and no matching row; survivors plus deleted count equals the old size |
| `Sql.FirstOfAppend` | server/src/gift_idea_actions.rs:34-37 | after an insert, the first row matching the re-read filter is the earlier first match if there is one, else the new row |
| `Sql.FirstOfUpdate` | server/src/gift_idea_actions.rs:44-45 | re-reading with the update's own filter returns the updated image of the first match |
| `Sql.CountOfKey` | server/src/gift_idea_actions.rs:58-60 | with a unique ascending key, a delete by key reports exactly 1 iff some row has that key |
| `Sql.DeleteKeepsAscending` | server/src/gift_idea_actions.rs:58 | deleting rows keeps the primary key ascending, and every survivor was a row before |
| `Store.GiftIdeaTable.Insert` | server/src/gift_idea_actions.rs:32-34 | an insert appends the row built from the new idea with the next rowid, and keeps the key invariant |
| `Store.GiftIdeaTable.SetWhereId` | server/src/gift_idea_actions.rs:44 | an update by id writes every column but the id, keeps the key invariant, and reports the rows written |
| `Store.GiftIdeaTable.DeleteWhereId` | server/src/gift_idea_actions.rs:58 | a delete by id removes the rows with that id, keeps the key invariant, and reports how many went |
| `Store.UserTable.Insert` | server/src/user_actions.rs:40 | an insert appends the user row with the next rowid and keeps the key invariant |
| `Store.UserTable.SetWhereEmail` | server/src/user_actions.rs:32 | an update by email writes all five `NewUser` columns into every row with that email and keeps ids |
| `Store.Overwrite` | server/src/models.rs:107-122 | the `GiftIdea` changeset (`treat_none_as_null`) keeps the row's primary key and writes every other column from the changeset, dates and `None` values included |
| `Store.Assign` | server/src/models.rs:19-28 | the `NewUser` changeset (`treat_none_as_null`) keeps the row's id and writes all five columns, a `None` as null |
| `Models.NewUserOf` | server/src/models.rs:31-39 | `NewUser::new(e, p)` has email `e`, password `p`, and no first name, last name or phone |
| `Models.NewUserFromRegister` | server/src/models.rs:42-50 | a registration body converts to a `NewUser` with the same email, password, names and phone |
| `Models.NewUserFromLogin` | server/src/models.rs:52-57 | a login body converts to a `NewUser` with its credentials and every optional field `None` |
| `Models.RegisterWithoutDetailsIsLogin` | server/src/models.rs:42-57 | a registration without optional fields and a login with the same credentials build the same `NewUser` |
| `Models.MinimalInfo` | server/src/models.rs:59-70 | the minimal user info keeps id, email, names and phone |
| `Models.MinimalInfoDropsOnlyPassword` | server/src/models.rs:59-70 | two users have the same minimal info iff they differ at most in their password |
| `Models.ToResponse` | server/src/models.rs:127-141 | the response keeps id, title, description, price, url, owner, recipient and reserver |
| `Models.ResponseDropsOnlyDates` | server/src/models.rs:127-141 | two gift ideas give the same response iff they differ at most in their three dates |
| `Models.NewGiftIdeaOf` | server/src/models.rs:160-173 | `NewGiftIdea::new` keeps title, owner and recipient, stamps both clock readings, and starts unreserved with no details |
| `Models.NewGiftIdeaFromRequest` | server/src/models.rs:176-184 | a request converts to an unreserved new idea with the request's title, owner, recipient, description, price and url |
| `Models.NewDestinationOf` | server/src/models.rs:96-104 | `NewDestination::new` stores its five arguments in the same-named fields |
| `Models.NewUserDestinationOf` | server/src/models.rs:204-206 | `NewUserDestination::new` stores user and destination ids |
| `GiftIdeaActions.ReservationOf` | server/src/models.rs:121 | a gift idea is Open iff it has no reserver, else Reserved by exactly that user |
| `GiftIdeaActions.FindAll` | server/src/gift_idea_actions.rs:9-12 | `find_all` returns every row in scan order (the empty list for an empty table) |
| `GiftIdeaActions.FindById` | server/src/gift_idea_actions.rs:22-27 | `find_by_id` is `Some` iff a row has that id, and then returns a stored row with that id |
| `GiftIdeaActions.FindByIdIsTheRow` | server/src/gift_idea_actions.rs:22-27 | in a valid table `find_by_id` of a row's id returns that very row |
| `GiftIdeaActions.StoredRequestReadsBack` | server/src/models.rs:127-184 | the row built from a request under any id projects to a response with the request's title, details, owner and recipient, and is Open |
| `GiftIdeaActions.AddRereadMissesInsertedRow` | server/src/gift_idea_actions.rs:34-37 | when an earlier row has the same title, the row `add` re-reads is not the inserted one |
| `GiftIdeaActions.AddReturnsOlderHeadphones` | server/src/gift_idea_actions.rs:34-37 | adding a second "Headphones" idea re-reads the first one |
| `GiftIdeaActions.Add` | server/src/gift_idea_actions.rs:29-39 | `add` appends the row and returns the first row with the new title: the inserted row when the title was unused, an older row otherwise |
| `GiftIdeaActions.AddReturningInserted` | server/src/gift_idea_actions.rs:29-39 | corrected `add`: returns exactly the inserted row, under a fresh id that `find_by_id` finds |
| `GiftIdeaActions.SetReservation` | server/src/gift_idea_actions.rs:42-44 | a reservation write sets the reserver of the row with that id and changes no other column or row |
| `GiftIdeaActions.WriteBackIsSetReservation` | server/src/gift_idea_actions.rs:42-44 | reading the row, setting one field and writing the whole row back equals the reservation write (ids are unique) |
| `GiftIdeaActions.WriteReservation` | server/src/gift_idea_actions.rs:42-46 | the shared reserve/unreserve body leaves the table as the reservation write and returns the response of the stored row |
| `GiftIdeaActions.Reserve` | server/src/gift_idea_actions.rs:41-47 | `reserve` needs the row to exist, sets its reserver to `uid` whatever it was, changes nothing else, and returns the stored row's response |
| `GiftIdeaActions.Unreserve` | server/src/gift_idea_actions.rs:49-55 | `unreserve` needs the row to exist, clears its reserver, changes nothing else, and returns the stored row's response |
| `GiftIdeaActions.StateAfterWrite` | server/src/gift_idea_actions.rs:41-55 | after reserve the row is Reserved(uid), after unreserve it is Open, whatever its previous state |
| `GiftIdeaActions.LastWriteWins` | server/src/gift_idea_actions.rs:42-44 | two reservation writes to a row leave it as the second alone would: no guard against overwriting a holder |
| `GiftIdeaActions.ReserveThenUnreserve` | server/src/gift_idea_actions.rs:41-55 | reserve then unreserve ends Open, in the same table as unreserve alone |
| `GiftIdeaActions.ReservationFrame` | server/src/gift_idea_actions.rs:42-44 | a reservation write leaves the row's other columns (dates included) and every other row unchanged |
| `GiftIdeaActions.Delete` | server/src/gift_idea_actions.rs:57-61 | `delete` returns true iff exactly one row had the id (iff one existed); afterwards none has it and the others remain |
| `GiftIdeaActions.Update` | server/src/gift_idea_actions.rs:63-67 | `update` overwrites the row with `gift.id` by `gift` and returns it; `NotFound` and no change when no row has that id; other rows unchanged |
| `GiftActions.FindById` | server/src/gift_actions.rs:7-10 | `find_by_id` is `Some` iff a row has that id, and then returns a stored row with that id |
| `GiftActions.Add` | server/src/gift_actions.rs:12-18 | `add` appends the row and returns the first row with the new name: the inserted row only when the name was unused |
| `GiftActions.Update` | server/src/gift_actions.rs:20-24 | `update` overwrites the row with `gift.id` and returns it, or `NotFound`; rows with other ids are unchanged |
| `UserActions.Login` | server/src/user_actions.rs:7-14 | `login` is `Some` iff some row has both the email and the password, and returns the first such row |
| `UserActions.WrongPasswordRejected` | server/src/user_actions.rs:9-10 | a password that no row under that email carries gives `None` |
| `UserActions.FindAll` | server/src/user_actions.rs:16-19 | `find_all` returns every user row in scan order (the empty list for an empty table) |
| `UserActions.FindById` | server/src/user_actions.rs:21-24 | `find_by_id` is `Some` iff a row has that id, and then returns a stored row with that id |
| `UserActions.FindByEmail` | server/src/user_actions.rs:26-29 | `find_by_email` is `Some` iff a row has that email, and then returns the first row in scan order with that email |
| `UserActions.Update` | server/src/user_actions.rs:31-35 | `update` writes all five columns (`None` as null) into every row with that email, keeps ids, leaves other rows, and returns the first such row or `NotFound` |
| `UserActions.Add` | server/src/user_actions.rs:37-43 | `add` appends the user and returns the first row with its email: the inserted row with every submitted column when the email was new |
| `Routes.Path` | client/src/route.rs:19-28 | only Home has the empty path; every other path starts with a segment the parser recognises, other than `""` and `"home"`; only a profile has two segments, the second its username |
| `Routes.Join` | client/src/route.rs:33 | `join("/")` starts with the first segment, puts a slash after it when more follow, and holds a slash only then or when a segment holds one |
| `Routes.TryFrom` | client/src/route.rs:44-62 | parsing fails exactly for an unknown first segment or a profile without a non-empty username; a parsed route's path is a prefix of the input, Home comes from an empty path, `""` or `"home"` |
| `Routes.Display` | client/src/route.rs:31-35 | the display string always starts with a slash |
| `Routes.DisplayForms` | client/src/route.rs:19-35 | the link of every route: `/`, `/login`, `/logout`, `/register`, `/profile/` plus the username, and `/gift_ideas` |
| `Routes.PathRoundTrip` | client/src/route.rs:19-62 | parsing a route's path gives the route back, provided a profile username is non-empty |
| `Routes.TrailingSegmentsIgnored` | client/src/route.rs:48-58 | segments after the first (after the second for a profile) do not change the parse |
| `Routes.PathInjective` | client/src/route.rs:19-28 | distinct routes have distinct paths |
| `Routes.SplitJoin` | client/src/route.rs:33 | cutting the slash-joined segments at every slash gives the segments back when none holds a slash |
| `Routes.DisplayRoundTrip` | client/src/route.rs:31-62 | the displayed link of a route, cut into URL segments, parses back to the route |
| `Session.Default` | client/src/session.rs:7-11 | the default session is `Guest` |
| `Session.New` | client/src/session.rs:14-19 | `new` is `LoggedIn(u)` for `Some(u)` and `Guest` for `None` |
| `Session.Viewer` | client/src/session.rs:20-25 | `viewer` is `Some(u)` for `LoggedIn(u)` and `None` for `Guest` |
| `Session.NewViewerRoundTrip` | client/src/session.rs:14-25 | `viewer(new(x)) == x` and `new(viewer(s)) == s` |
| `Session.DefaultHasNoViewer` | client/src/session.rs:7-25 | the default session has no viewer |
| `Pages.New` | client/src/page.rs:48-53 | `ViewPage::new` keeps the title prefix and the content |
| `Pages.Title` | client/src/page.rs:54-56 | the title is `"Gifts - "` followed by the prefix |
| `Pages.IntoContent` | client/src/page.rs:58-60 | `into_content` hands back the content, which together with the title prefix rebuilds the view |
| `Pages.NewTitleAndContent` | client/src/page.rs:48-60 | a view built by `new(t, c)` has title `"Gifts - " + t` and gives back `c` unchanged |
| `Pages.TitleInjective` | client/src/page.rs:54-56 | distinct prefixes give distinct titles |
| `Pages.IsActive` | client/src/page.rs:108-118 | `is_active` holds exactly for the six same-named pairs: home, login, register, profile, gift ideas and add gift idea, each on its own page |
| `Pages.NeverActive` | client/src/page.rs:108-118 | `Other` highlights nothing and the logout link is never highlighted |
| `Pages.OneActivePage` | client/src/page.rs:108-118 | every route but logout is highlighted on exactly one page |
| `IntParse.ParseI32` | client/src/page/add_gift_idea.rs:99 | a parsed value lies in the 32-bit range, and the empty string does not parse |
| `IntParse.Digits` | client/src/page/add_gift_idea.rs:142 | an id's decimal text is a non-empty digit string whose value is the id, with no leading zero |
| `IntParse.ToDecimal` | client/src/page/add_gift_idea.rs:142 | the text of an integer is never empty |
| `IntParse.ParseToDecimal` | client/src/page/add_gift_idea.rs:99-142 | every 32-bit integer's text parses back to it |
| `RegisterPage.ToRequest` | client/src/page/register.rs:20-30 | the request copies email and password and wraps names and phone in `Some`, even when empty |
| `RegisterPage.ConfirmationNotSent` | client/src/page/register.rs:20-30 | the confirmation field never reaches the request body |
| `RegisterPage.Submit` | client/src/page/register.rs:89-96 | a submit posts the form's request exactly when the view does not flag the confirmation field invalid (the comparison at register.rs:160,165), and otherwise does nothing |
| `RegisterPage.Model.Init` | client/src/page/register.rs:51-53 | `init` keeps the given session and starts with an empty form |
| `RegisterPage.Model.Sink` | client/src/page/register.rs:55-63 | a session change replaces the session and navigates home; other messages change nothing |
| `RegisterPage.Model.Update` | client/src/page/register.rs:79-104 | each setter changes only its own field; submit never changes the form and has the effect of `Submit`, posting exactly when the confirmation is not flagged invalid; cancel goes home; a successful reply stores the user and opens the gift ideas |
| `AddGiftIdeaPage.ToRequest` | client/src/page/add_gift_idea.rs:19-30 | the request copies title, owner and recipient and wraps description, price and url in `Some` |
| `AddGiftIdeaPage.RecipientValues` | client/src/page/add_gift_idea.rs:135-146 | the select offers `"0"` ("Select One") then each user's id as text |
| `AddGiftIdeaPage.RecipientValuesParse` | client/src/page/add_gift_idea.rs:98-146 | every value the select offers parses, to 0 or to the chosen user's id, so choosing never panics |
| `AddGiftIdeaPage.CanSubmit` | client/src/page/add_gift_idea.rs:103 | a submit goes out exactly when the request body it would carry has a non-empty title and a recipient other than 0 ("Select One") |
| `AddGiftIdeaPage.DefaultFormBlocked` | client/src/page/add_gift_idea.rs:9-17 | the default form (recipient 0, empty title) cannot be submitted |
| `AddGiftIdeaPage.Model.Init` | client/src/page/add_gift_idea.rs:52-65 | `init` needs a stored user, builds the session from it, makes that user the form's owner, and requests the user list |
| `AddGiftIdeaPage.Model.Sink` | client/src/page/add_gift_idea.rs:67-76 | a session change replaces the session and navigates to login; other messages change nothing |
| `AddGiftIdeaPage.Model.Update` | client/src/page/add_gift_idea.rs:92-119 | each text setter changes only its own field; a recipient choice must parse and sets the recipient to its value; submit never changes the form and posts iff the title is non-empty and the recipient is not 0; replies navigate or fill the recipient list |

## Findings

| source | as written | input that shows it | evidently intended | confidence | as-written member | corrected member |
|---|---|---|---|---|---|---|
| server/src/gift_idea_actions.rs:35-37 | after the insert, `add` re-reads the first row whose title equals the new title | a table holding "Headphones" with id 1; adding another "Headphones" (id 2) returns row 1 | return the row just inserted (the comment at line 30 names `RETURNING`) | not executed; high | `GiftIdeaActions.Add` (exhibited by `GiftIdeaActions.AddReturnsOlderHeadphones`) | `GiftIdeaActions.AddReturningInserted` |
| server/src/gift_actions.rs:16 | after the insert, `add` re-reads the first row with the new name | the same two "Headphones" inserts | return the row just inserted | not executed; high | `GiftActions.Add` (exhibited by `GiftIdeaActions.AddRereadMissesInsertedRow`) | `GiftIdeaActions.AddReturningInserted` |

## Left out

- HTTP handlers (`server/src/main.rs`): actix routing, the connection pool, `web::block`, JSON, and the 404/500 status mapping are not part of this model.
- Concurrency: each action is one atomic step. Concurrent reserves, where the last writer wins, are not modelled.
- Database failures: connection errors, `expect` on a failed load, and constraint violations are not modelled. The only error is `NotFound` from `first()` on an empty selection. The `unwrap` on a missing row in reserve and unreserve is a precondition.
- GiftIdeaActions.Reserve, GiftIdeaActions.Unreserve: the row must exist. The source unwraps the lookup and panics on a missing id, and a panic is not modelled.
- AddGiftIdeaPage.Model.Init: a stored user is required. Without one the source navigates to login and then panics on the unwrap of the missing viewer.
- AddGiftIdeaPage.Model.Update: a recipient choice must parse as a 32-bit integer. The source unwraps the parse and panics otherwise. `AddGiftIdeaPage.RecipientValuesParse` shows that every value the select offers does parse.
- Rowid allocation: ids come from a counter that only grows, which is SQLite's AUTOINCREMENT behaviour. Plain rowid reuse after deleting the highest row is not modelled.
- Integer width: server ids are unbounded integers. The 32-bit `i32` range is modelled only where the client parses text.
- Scan order: `first()` without `ORDER BY` is taken to return rows in insertion (rowid) order.
- Timestamps: `Utc::now()` readings are parameters. No action stamps the date columns from the clock: reserve and unreserve keep them, and `update` writes whatever values the caller sends.
- Debug output (`println!`, `debug_query`, `log!`) is not modelled.
- Client effects: local storage, `fetch`, `perform_cmd`, `go_to`/`push_route` and page dispatch in `client/src/lib.rs` are left out. Updates return an `Effect` value naming the request or navigation instead.
- Rendering: the `view` functions, `view_header`, `view_navbar_link` and `view_errors` are not modelled. Only the confirm-field flag and the recipient select values are kept.
- The `problems` maps of both form models are never read or written, so they are not modelled. The same goes for the `session()` accessors and `From<Model> for Session`, which only return the session field.
- URL parsing inside the browser framework is `Routes.Segments`: drop the leading slash, then cut at every slash.
- `str::parse::<i32>` and `i32::to_string` come from Rust's standard library. `IntParse` models their documented behaviour.
- Superseded code: `backend/`, `frontend/`, the schema files and the pages without rules (`login.rs`, `profile.rs`, `home.rs`, `gift_ideas.rs`, `not_found.rs`) are not part of this model.
