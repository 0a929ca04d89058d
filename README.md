# mails-api core, modelled in Dafny

This project models the in-memory logic of the `mails-api` mail gateway (an HTTP front
for IMAP and SMTP accounts) and proves properties of it. It covers four parts.

- **Mailbox hierarchy** (`src/models/Box.ts`): the server's nested mailbox listing becomes
  `Box` nodes with parent back-references. `fullName` climbs the parents, and `findBox`
  searches depth first, pruning a subtree whose full name is not a prefix of the target.
  `toJson` projects a Box without its parent. Every Box built is pushed onto one
  accumulator, children before their parent. The model keeps that accumulator as a `seq<Box>`
  field of the class `BoxStore`, and a reference to a Box is its position in it.
- **Listing pipeline** (`src/router/mails/index.ts`): the type-dispatching comparator
  `sortMails`, the in-place stable sort, the in-place reversal for `sort=desc`, and the
  page window with the `'infinity'` sentinel.
- **Session registries** (`src/models/Session.ts`, `src/models/Connection.ts`): the static
  arrays of sessions and connections, each a class over a `seq`. Both have lookups,
  connect-or-create and `destroy`. The session registry also draws tokens in a loop until
  one is unused and has `destroyAll`. The connection registry takes its token as given and
  has no `destroyAll`.
- **Header projection** (`src/models/Mail.ts`, `src/utils/mailparser.ts`): the header
  schema, recipient splitting, the drop-on-failure accumulation of fetched messages, the
  fetch range, and the three converters from a decoded header value.

Modules: `Outcomes` (Option, Result), `Text` (the JavaScript string primitives used:
`join`, `split`, `trim`, a string order, decimal rendering), `MailParser`, `Mails`,
`Listing`, `Boxes`, `Registry` (first-match lookup and token distinctness shared by the
registries), `Sessions` and `Connections`.

IMAP and SMTP handles are opaque values. The outcomes of the protocol callbacks are
parameters: whether the session exists, the server's listing or error, and the fetched
messages or the stream's error. `uuid()` is an oracle parameter: a sequence of candidate
tokens for `Session.create`, and one token for `Connection.create`. Calls to `imap.end()`
are recorded in a ghost set `ended` of the session registry.

Three behaviours of the code are easy to miss, and the model keeps them as written:
- `Session.destroyAll` ends only the first session's IMAP handle (see Findings).
- `Session.destroy` drops the target session and every later one, because of a
  one-argument `splice`.
- `Mail.getAll` fetches `1:<limit>` or `1:*` with no search criteria. Pagination happens
  afterwards in the route handler, not before the fetch.

## Model

| member | source | states |
|---|---|---|
| Text.Split | src/models/Mail.ts:90 | `split(',')` yields one more piece than there are separators, and no piece contains the separator |
| Text.Join | src/utils/mailparser.ts:15 | `join(', ')` of no pieces is empty and of one piece is that piece, with no separator; `Text.JoinSplit` pins it as the inverse of `split` |
| Text.JoinSplit | src/models/Mail.ts:90 | splitting on a character and joining with it gives back the original text, so no character is lost or reordered |
| Text.Trim | src/models/Mail.ts:91 | `trim` returns the slice starting at the first non-white character, drops only white space around it, and neither starts nor ends with white space |
| Text.LexCompare | src/router/mails/index.ts:104-110 | the string order answers -1, 0 or 1, and 0 exactly for equal strings |
| Text.LexCompareFlip | src/router/mails/index.ts:109 | swapping the operands negates the string comparison |
| Text.LexCompareTrans | src/router/mails/index.ts:109 | the string order is transitive, so it is a total order |
| Text.DigitsRoundTrip | src/models/Mail.ts:67 | reading back the decimal digits of a number gives the number |
| Text.IntToString | src/models/Mail.ts:67 | the template-literal rendering of an integer starts with '-' exactly for negatives; a non-negative one renders as digits denoting it |
| MailParser.ToString | src/utils/mailparser.ts:10-28 | fails exactly on an object with neither `text` nor `value`, with "Incompatible type" |
| MailParser.ToArray | src/utils/mailparser.ts:30-48 | fails exactly where `ToString` fails; the list is empty only for the empty array |
| MailParser.ToDate | src/utils/mailparser.ts:50-68 | fails exactly where the others fail; a Date input is returned unchanged |
| MailParser.StringIsJoinedArray | src/utils/mailparser.ts:10-48 | the string form succeeds exactly when the list form does, and is that list joined with ", " |
| MailParser.TextBeforeValue | src/utils/mailparser.ts:17-21 | an object with both `text` and `value` is read through `text` by all three converters |
| MailParser.DateParsesFirstOfArray | src/utils/mailparser.ts:50-62 | except for a Date, the text handed to `new Date` is the first element of the list form, or "" for the empty array |
| Mails.ValidateHeader | src/models/Mail.ts:5-15 | a header validates exactly when `from`, `to`, `subject` and `date` are non-empty; the first value of `from`, `subject`, `date` and all of `to` are kept |
| Mails.ValidateIgnoresOtherFields | src/models/Mail.ts:10-15 | fields outside the schema never change the outcome of validation |
| Mails.TrimEach | src/models/Mail.ts:91 | each piece trimmed, the count unchanged |
| Mails.Recipients | src/models/Mail.ts:89-91 | there are at least as many recipients as `to` entries, none contains ',' and none starts or ends with white space |
| Mails.RecipientsAppend | src/models/Mail.ts:89-91 | recipients are taken entry by entry in order: the split distributes over concatenation of entries |
| Mails.RecipientsOfEntry | src/models/Mail.ts:90-91 | one entry gives its trimmed comma pieces, one more than its commas, empty pieces kept |
| Mails.Concat | src/models/Mail.ts:77-80 | the body of a stream without chunks is empty and of a single chunk is that chunk |
| Mails.ConcatAppend | src/models/Mail.ts:77-80 | `buffer += chunk` keeps every chunk in arrival order: the body of two stretches of the stream is their bodies one after the other |
| Mails.Accept | src/models/Mail.ts:82-96 | a message yields a Mail exactly when its header validates; the Mail carries the sequence number, the concatenated body and the validated fields |
| Mails.AcceptedAppend | src/models/Mail.ts:75-97 | accepted mails keep arrival order: two stretches of the stream give the concatenation of their mails |
| Mails.Accepted | src/models/Mail.ts:74-97 | the collected mails are never more than the messages delivered; which and in what order is pinned by `AcceptedAppend`, `AcceptedSound` and `AcceptedComplete` |
| Mails.AcceptedSound | src/models/Mail.ts:82-97 | every collected mail was built from a delivered message whose header validates |
| Mails.AcceptedComplete | src/models/Mail.ts:82-96 | every delivered message whose header validates is collected |
| Mails.AcceptedLength | src/models/Mail.ts:82-97 | there are never more mails than messages, and as many when every header validates |
| Mails.CollectMails | src/models/Mail.ts:74-100 | the buffers filled by the stream callbacks and the pushes give exactly the accepted messages, in order |
| Mails.FetchRange | src/models/Mail.ts:67 | the range starts "1:"; it is "1:*" exactly without a limit, and otherwise, for a non-negative limit, the digits after "1:" denote the limit |
| Mails.GetAll | src/models/Mail.ts:56-108 | no session gives [] and no command; otherwise the box (default "INBOX") is opened read-only, the range is fetched with `markSeen` false, and the result is the open error, else the stream error, else the accepted mails |
| Listing.Compare | src/router/mails/index.ts:90-126 | succeeds exactly for operands of the same comparable kind; "Incompatible type" for an uncomparable left operand; dates and numbers are ordered by value, booleans false first; 0 exactly for equal values |
| Listing.CompareFlip | src/router/mails/index.ts:95-124 | swapping the operands flips the sign of the comparison |
| Listing.AfterOrder | src/router/mails/index.ts:90-126 | "sorts after" is asymmetric and "does not sort after" is transitive: the comparator is consistent |
| Listing.FieldCompare | src/router/mails/index.ts:95-125 | comparing two messages on a key throws only for `to`, always with "Incompatible type" |
| Listing.Field | src/router/mails/index.ts:95-96 | `a[sortBy]` is a number for `id`, a string for `from` and `subject`, an array for `to` and a Date for `date` |
| Listing.InsertPermutes | src/router/mails/index.ts:26-28 | one insertion step adds exactly the inserted message |
| Listing.SortPermutes | src/router/mails/index.ts:26-28 | the sorted list is a permutation of the input |
| Listing.InsertSorted | src/router/mails/index.ts:26-28 | inserting into an ascending list keeps it ascending |
| Listing.SortSorts | src/router/mails/index.ts:26-28 | the sorted list is ascending on the key |
| Listing.Insert | src/router/mails/index.ts:26-28 | one insertion step lengthens the list by one; its placement is pinned by `InsertLandsAt`, `InsertPermutes` and `InsertSorted` |
| Listing.SortBy | src/router/mails/index.ts:26-28 | the sort keeps the length; `SortPermutes`, `SortSorts` and `SortStable` pin it to the one stable ascending order |
| Listing.SortKeepsSorted | src/router/mails/index.ts:26-28 | a list already in order is left unchanged |
| Listing.Ties | src/router/mails/index.ts:26-28 | the messages that tie with a given one on the key are drawn from the input and are never more than it |
| Listing.TieTrans | src/router/mails/index.ts:90-126 | two messages that tie with a third do not sort after one another |
| Listing.InsertTies | src/router/mails/index.ts:26-28 | an insertion step appends the inserted message to the messages it ties with, keeping their order |
| Listing.SortStable | src/router/mails/index.ts:26-28 | the sort is stable: for every message, the messages tying with it come out in the order they went in |
| Listing.Reversed | src/router/mails/index.ts:29-31 | reversal keeps the length |
| Listing.ReversedIndex | src/router/mails/index.ts:29-31 | position k of the reversed list holds the k-th message from the end |
| Listing.ReversedInvolution | src/router/mails/index.ts:29-31 | reversal is a permutation, and reversing twice restores the list |
| Listing.ReversedMultiset | src/router/mails/index.ts:29-31 | reversal is a permutation |
| Listing.ReversedIsDescending | src/router/mails/index.ts:29-31 | the reverse of an ascending list is descending |
| Listing.Slice | src/router/mails/index.ts:43 | `slice` never returns more than the window's width |
| Listing.Paginate | src/router/mails/index.ts:36-44 | a page never holds more than `perPage` messages |
| Listing.PageWindow | src/router/mails/index.ts:36-44 | both branches of the pagination block give the window `[(page-1)*n, page*n)` clipped to the length |
| Listing.PagesArePrefix | src/router/mails/index.ts:43 | pages 1..k concatenated are the first k*n messages: pages are disjoint and leave no gap |
| Listing.PagesCoverAll | src/router/mails/index.ts:43 | enough pages concatenate to the whole list |
| Listing.UnboundedPages | src/router/mails/index.ts:35-42 | with `'infinity'`, page 1 is the whole list and every later page is empty |
| Listing.TwentyFiveByTen | src/router/mails/index.ts:33-44 | 25 messages at 10 per page give 10, 10 and 5 messages, then nothing |
| Listing.PageOf | src/router/mails/index.ts:33 | the page is 1 when the query has none and the given page otherwise, and it is at least 1 |
| Listing.KeyOf | src/router/mails/index.ts:27 | the sort key is the requested one, `id` by default |
| Listing.PerPageOf | src/router/mails/index.ts:34-35 | the page size is `Count(10)` when the query has none and the given size otherwise (`'infinity'` read as unbounded), and a count is positive |
| Listing.Ordered | src/router/mails/index.ts:26-31 | sorting and the optional reversal keep the number of messages; `OrderedPermutes` states the order |
| Listing.OrderedPermutes | src/router/mails/index.ts:26-31 | the listing order is a permutation of the candidates, ascending, or for `desc` the exact reverse of the ascending order |
| Listing.InsertLandsAt | src/router/mails/index.ts:26-28 | a message is inserted right after the last message that does not sort after it |
| Listing.FindSlot | src/router/mails/index.ts:26-28 | the scan of an insertion step stops where `Insert` places the message among the sorted prefix, and fails exactly when a comparison on `to` is made |
| Listing.InsertAt | src/router/mails/index.ts:26-28 | one in-place insertion step leaves the array equal to `Insert` of its next message into the sorted prefix, followed by the untouched rest, or leaves it untouched when the comparator throws |
| Listing.SortNext | src/router/mails/index.ts:26-28 | one round of the in-place sort extends the sorted prefix by one element and keeps the rest, or leaves the input untouched when a comparison on `to` throws |
| Listing.SortInPlace | src/router/mails/index.ts:26-28 | the in-place sort leaves the array equal to the stable sort of its contents; it throws exactly when sorting at least two messages on `to` |
| Listing.SwapEnds | src/router/mails/index.ts:29-31 | after the swaps each position k holds the message that was k-th from the end |
| Listing.ReversedOf | src/router/mails/index.ts:29-31 | any list holding the k-th message from the end at each position k is the reversal: reversal is fixed by its positions |
| Listing.ReverseInPlace | src/router/mails/index.ts:29-31 | the in-place reversal leaves the array equal to the reverse of its contents |
| Listing.ListMails | src/router/mails/index.ts:26-44 | the handler fails with "Incompatible type" exactly when sorting two or more messages on `to`; otherwise it returns the requested page of the ordered messages |
| Boxes.NewBox | src/models/Box.ts:66-78 | missing flags become [], a missing delimiter "/", missing children []; the name and parent are as given |
| Boxes.FullName | src/models/Box.ts:59-64 | a full name is never shorter than the box's own name, and a top-level box's full name is its name |
| Boxes.ChildFullName | src/models/Box.ts:59-64 | in a tree, a child's full name is its parent's full name, its delimiter and its name |
| Boxes.DescendsTrans | src/models/Box.ts:59-64 | a box below a box below `a` is below `a` |
| Boxes.AncestorPrefix | src/models/Box.ts:59-64 | a box's full name extends the full name of every box above it |
| Boxes.FindInSound | src/models/Box.ts:144-157 | a box found has exactly the requested full name and lies below the box searched |
| Boxes.FindAmongSound | src/models/Box.ts:149-155 | a box found among children has the requested full name and lies below one of them |
| Boxes.FindAmongHit | src/models/Box.ts:149-155 | a hit for any child is a hit for the children in order |
| Boxes.FindClimbs | src/models/Box.ts:144-157 | a hit below a box is a hit for every box above it |
| Boxes.FindInComplete | src/models/Box.ts:144-157 | if some box below has the requested full name, the search finds a box |
| Boxes.PruneSafe | src/models/Box.ts:148 | when the target does not start with a box's full name, nothing below it matches, so the pruning loses no hit |
| Boxes.LookupIff | src/models/Box.ts:95-104 | the lookup over the top-level boxes finds a box exactly when some box below them has the requested full name, and what it finds has that name |
| Boxes.ToJson | src/models/Box.ts:200-207 | the projection keeps name, flags and delimiter, and has one child per child |
| Boxes.ToJsonAll | src/models/Box.ts:205 | one projection per box, in order: position k holds the projection of the k-th id |
| Boxes.ToJsonFrame | src/models/Box.ts:200-207 | the projection never reads a parent: boxes of equal shape project alike |
| Boxes.ProjectionExtends | src/models/Box.ts:163-179 | building a further box leaves the projections of the earlier top-level boxes alone |
| Boxes.AdoptKeepsTree | src/models/Box.ts:174-177 | pushing a box and setting it as the parent of its parentless children keeps parents and children in agreement |
| Boxes.Update | src/models/Box.ts:118-130 | a rename is issued exactly when there is a session and `newName` is given, with those names |
| Boxes.BoxStore.FindBox | src/models/Box.ts:144-157 | the pruned loop with early return finds what the unpruned depth-first search finds |
| Boxes.BoxStore.Get | src/models/Box.ts:95-104 | the first hit over the top-level boxes in order, and what it finds has the requested full name |
| Boxes.BoxStore.BuildBox | src/models/Box.ts:163-178 | the box of one entry is pushed after all its descendants, has no parent, and projects to the converted entry; the accumulator stays a tree |
| Boxes.BoxStore.FromImapBoxes | src/models/Box.ts:159-179 | one box per entry at every depth, top-level boxes in entry order and parentless, earlier boxes untouched, and the projections equal the converted listing |
| Boxes.GetAll | src/models/Box.ts:80-93 | no session gives no boxes; a server error is passed on; otherwise the listing is converted into a fresh accumulator |
| Registry.FirstIndex | src/models/Connection.ts:49-51 | `findIndex` finds the key exactly when it occurs, at a position holding it with no earlier occurrence |
| Registry.FirstIndexAt | src/models/Session.ts:43 | a match with none before it is the first match |
| Registry.DistinctIndex | src/models/Session.ts:43 | with distinct tokens, each token is found at its own index |
| Registry.FirstIndexOfAppended | src/models/Session.ts:102-112 | a token new to the registry, appended, is found at the end, and tokens stay distinct |
| Registry.FirstIndexPrefix | src/models/Session.ts:117-122 | nothing before the first match holds the key |
| Sessions.DestroyAllLeaks | src/models/Session.ts:126-132 | with two sessions on different handles, `destroyAll` as written never ends the second IMAP handle |
| Sessions.EndedByDestroyAll | src/models/Session.ts:126-132 | `destroyAll` as written ends at most one IMAP handle, the first session's, and only a handle of the registry |
| Sessions.DestroyAgainIsNoOp | src/models/Session.ts:117-123 | after `destroy` removes a token's session, no session holds the token, so destroying again changes nothing |
| Sessions.SessionRegistry.Get | src/models/Session.ts:42-44 | the first session with the token, found exactly when some session holds it |
| Sessions.SessionRegistry.Has | src/models/Session.ts:46-48 | holds exactly when some session holds the token, that is when `get` finds one |
| Sessions.SessionRegistry.FreshToken | src/models/Session.ts:102-104 | the token drawn is held by no session, and every candidate drawn before it was held |
| Sessions.SessionRegistry.Create | src/models/Session.ts:58-114 | a failed open changes nothing; otherwise a session with a fresh token and the given handles is appended, `get` of its token returns it, and tokens stay distinct |
| Sessions.SessionRegistry.Connect | src/models/Session.ts:50-56 | the first session of the address is returned with nothing changed; only without one is a session created |
| Sessions.SessionRegistry.Destroy | src/models/Session.ts:116-124 | an unknown token changes nothing; otherwise the registry is cut before the first holder, dropping it and every later session, and its IMAP handle is ended |
| Sessions.SessionRegistry.DestroyAll | src/models/Session.ts:126-132 | the registry ends empty, and only the first session's IMAP handle is ended |
| Sessions.SessionRegistry.DestroyEach | src/models/Session.ts:126-132 | the corrected teardown: the registry ends empty and every session's IMAP handle is ended |
| Connections.RemoveAt | src/models/Connection.ts:55 | `splice(i, 1)` drops the element at i and keeps the others in order |
| Connections.Without | src/models/Connection.ts:48-56 | `destroy` of an unheld token changes nothing; of a held one it removes exactly one connection, the first holder |
| Connections.WithoutRemovesToken | src/models/Connection.ts:48-56 | with distinct tokens, `destroy` removes the token altogether, shrinks the registry by one exactly when the token was held, and keeps tokens distinct |
| Connections.WithoutIdempotent | src/models/Connection.ts:48-56 | destroying a token twice is destroying it once |
| Connections.CreateHoldsTokenOnce | src/models/Connection.ts:36-46 | after `create`, exactly one connection holds the new token, it is the last one, and tokens stay distinct |
| Connections.ConnectionRegistry.GetAll | src/models/Connection.ts:24-26 | the live connections, in order |
| Connections.ConnectionRegistry.Destroy | src/models/Connection.ts:48-56 | the first holder of the token is removed, the others kept in order; an unknown token changes nothing |
| Connections.ConnectionRegistry.Create | src/models/Connection.ts:36-46 | the `for … of` loop evicts the token's holder and the new connection is appended, keeping tokens distinct |
| Connections.ConnectionRegistry.Connect | src/models/Connection.ts:28-34 | the first connection of the address is returned with nothing changed; otherwise a connection is created |

## Left out

- The HTTP layer: routing, the 401 answer for an unknown token, the response mapping of
  `GET /mails/:box?` (`date.toString()`, `flags`), and `GET /mails/:box/:id`.
  `Mail.get` and `getProperties` are not defined in `src/models/Mail.ts`. The listing
  pipeline therefore takes `MailProperties` records as given.
- The `query-searcher` filtering step of the listing. It is a foreign library, so
  `Listing.ListMails` takes the already filtered candidates.
- `Box.create` and `Box.delete`. They only hand a name to the IMAP handle, and the error
  their callback throws escapes into the event loop. `Box.update` is modelled as the
  command it issues, without that error.
- IMAP and SMTP connection setup, `smtp.verify`, and the event streams. Their outcomes are
  parameters. The order in which `Promise.all` settles is not modelled; the first
  rejection is given.
- Concurrency: operations are sequential. The `await` inside `Connection.create`'s loop and
  racing `create` calls are not modelled.
- Date parsing (`new Date(text)`), `toISOString`, and invalid dates. A Date is its integer
  time value, and `MailParser.ToDate` stops at the text handed to `new Date`.
- Text.LexCompare: the code-point order stands in for `localeCompare`, whose collation
  belongs to the runtime. It is not the UTF-16 code-unit order either: the two differ for
  characters above U+FFFF against U+E000 to U+FFFF. The proofs rely only on its being a total order.
- JavaScript numbers are doubles. Ids, times and limits are unbounded integers, and
  `Mails.FetchRange` renders only integer limits.
- `Object.entries` lists integer-like keys first. The listing entries are taken in the
  order given.
- A listing entry whose `children` is `undefined` would make `Object.entries` throw. The
  library reports a missing child list as `null`, which becomes `[]`, and the model has only
  that case.
- Boxes.GetAll: after a server error the source still calls `fromImapBoxes` on the
  missing listing, inside the callback and after the rejection. The model stops at the
  error.
- Sessions.SessionRegistry.Create: the generator's output is a finite sequence of
  candidates, and the precondition asks that one of them is fresh. The source loop draws
  until one is.
- Connections.ConnectionRegistry.Create: it is specified only for registries whose tokens
  are distinct. Every sequence of calls keeps them distinct. With duplicate tokens, the
  source loop would skip the element after each removal.
- Aliasing: `Connection.getAll` returns the live array itself, so a caller could mutate it.
  `Connections.ConnectionRegistry.GetAll` returns the value.

## Findings

| source | as written | input that shows it | evidently intended | confidence | as-written member | corrected member |
|---|---|---|---|---|---|---|
| src/models/Session.ts:126-132 | `map` first calls `destroy` for session 0. `destroy` runs to completion before its first `await`, and its one-argument `splice(0)` empties the array. `map` then skips the vanished indices, so only the first IMAP handle is ended | two live sessions on different IMAP handles | every live session is destroyed and its IMAP handle ended | not executed; follows from the semantics of `Array.prototype.map` and `splice` | Sessions.DestroyAllLeaks | Sessions.SessionRegistry.DestroyEach |
