# LRU cache server: a verified model of the cache and its command handler

This project models the core of a small Redis-like key/value server written in Rust. There are two parts.

- **The LRU cache library** (`lru/src`):
  - a doubly-linked recency list of nodes (`List`, `Node`);
  - an index `refs` from key to node;
  - a capacity that `Lru::new` fixes at 5;
  - the `Value` payload type (`Bool`, `Int`, `Str`) and its text rendering.
- **The request handler** (`src/command.rs`). `Command::parse` reads a minimal subset of RESP, the Redis serialization protocol: an array of bulk strings. It dispatches SET, GET and PING to the cache and answers with fixed reply strings.

## How the model is built

- **`wrappers.dfy`**: the `Option` type.
- **`values.dfy`**, a pure module:
  - `Value` with `isize` as a 64-bit integer type;
  - Rust's decimal integer formatting (`IntText`);
  - Rust's `str::parse::<i64>` (`ParseI64`);
  - `ToString`, which is `impl ToString for Value`.
- **`list.dfy`**, the recency list:
  - The raw `NonNull<Node>` pointers become ids into an arena `nodes: seq<Node>`. The arena only grows, because the source never frees a node: the `Box::from_raw` in `pop_back` is commented out.
  - A ghost sequence `order` holds the ids met walking `next` from `head`.
  - `Valid()` says the links describe exactly that walk:
    - the ids are in the arena and distinct;
    - every `prev` and `next` link agrees with `order`;
    - `head` and `tail` are its ends, and `len` is its length.
  - The class `List` has the source's fields and methods. Every method keeps `Valid()` and states the new `order`, `head`, `tail`, `len`, and the keys and values stored in the arena.
- **`cache.dfy`**, the cache:
  - `CacheView` is the cache seen as a value: the index, the key and value of every node by id, and `order`.
  - `SetView` and `GetView` are `set` and `get` on that value.
  - The class `Lru` has `refs`, the `List` and the capacity. Its `Set` and `Get` are proved to move the view exactly as `SetView` and `GetView` do.
  - The cache's properties are lemmas about `SetView` and `GetView`.
  - `Inv` is the invariant every reachable cache state keeps:
    - the list is well formed, and `len <= capacity`;
    - every indexed key points to a live node carrying that key;
    - no live node ahead of an indexed node carries the same key.
- **`command.dfy`**, the handler:
  - `Lines` is Rust's `str::lines`.
  - `Utf8Len` is `String::len`, the exact byte length of the UTF-8 encoding, which the GET reply puts after `$`.
  - `Tokenize` is the `while` loop of `parse`, proved equal to the recursive `TokensFrom`.
  - `Respond` is `parse` on a cache state. `Command.Parse` runs the handler against an `Lru` object and is proved to return and do what `Respond` says.
  - `Encode` is the RESP encoding a client sends. The lemmas about `Encode` tie well-formed requests to their replies.

`set` never looks for an existing node of the same key. It evicts the tail when `len == capacity`, then always pushes a fresh node and overwrites `refs[key]`. The model follows the code, so:
- a repeated `set` leaves the older node in the list, unindexed;
- the index and the list are not in bijection;
- evicting such a stale node drops the key from the index while its newer node is still in the list.

The lemmas `RepeatedSetGrows`, `StaleEvictionDropsKey` and `StaleEvictionScenario` state these consequences.

## Model

| member | source | states |
|---|---|---|
| LinkedList.NewNode | lru/src/list.rs:46-53 | a new node carries the given key and value and has neither link, so it is both head and tail |
| LinkedList.IsTail | lru/src/list.rs:55-57 | a node is the tail exactly when it has no `next` (definition) |
| LinkedList.IsHead | lru/src/list.rs:59-61 | a node is the head exactly when it has no `prev` (definition) |
| LinkedList.NodeEnds | lru/src/list.rs:163-179 | a new node is both head and tail; setting its `next` makes it no longer a tail but still a head, and setting its `prev` does the reverse |
| LinkedList.LinkedPushFront | lru/src/list.rs:73-82 | linking a detached node whose `next` is the old head, and pointing the old head's `prev` back at it, gives a well-linked list with the node in front |
| LinkedList.LinkedPopBack | lru/src/list.rs:130-146 | dropping the tail and clearing the new tail's `next` gives a well-linked list of the remaining nodes in order |
| LinkedList.LinkedUnlink | lru/src/list.rs:95-104 | bridging the neighbours of an interior node (prev's `next` to next, next's `prev` to prev) gives a well-linked list without that node, the others in order |
| LinkedList.UnlinkLinksAt | lru/src/list.rs:95-104 | after the bridge, the node at each remaining position has the remaining neighbours as its `prev` and `next` |
| LinkedList.MoveToFrontFacts | lru/src/list.rs:84-114 | moving position p to the front keeps the length and the multiset of ids, puts that id first and the others in their order, is the identity at p = 0, and changes the last id only when the moved one was last |
| LinkedList.MoveToFrontDistinct | lru/src/list.rs:84-114 | moving to the front keeps the ids distinct |
| LinkedList.List.constructor | lru/src/list.rs:65-71 | a new list is empty: no head, no tail, length 0 |
| LinkedList.List.Len | lru/src/list.rs:148-151 | `len` is the number of nodes on the walk from the head |
| LinkedList.List.PushFrontNode | lru/src/list.rs:73-82 | the node becomes the head in front of the old walk, the tail is set only when the list was empty, `len` grows by one, and the list stays well linked |
| LinkedList.List.PushFront | lru/src/list.rs:116-128 | allocates a fresh node id holding key and value, makes it the head with the old walk behind it, grows `len` by one, sets the tail only on an empty list, and returns the node's id |
| LinkedList.List.PopBack | lru/src/list.rs:130-146 | on an empty list yields None and changes nothing; otherwise yields the tail's key, drops it from the walk, decrements `len`, makes the predecessor the tail and clears the head when the list becomes empty |
| LinkedList.List.Detach | lru/src/list.rs:92-107 | the unlinking half of `move_front`: the tail goes through `pop_back`, an interior node is bridged over; the node leaves the walk, the others keep their order, `len` drops by one |
| LinkedList.List.Relink | lru/src/list.rs:109-112 | the relinking half of `move_front`: the detached node gets the head as `next`, no `prev`, and is pushed at the front |
| LinkedList.List.MoveFront | lru/src/list.rs:84-114 | the node becomes the head and the other nodes keep their relative order; `len` is unchanged; nothing at all changes when `len` is 1 or the node already is the head; the tail changes only when the moved node was the tail |
| LinkedList.List.Walk | lru/src/list.rs:18-27 | following `next` from the head meets exactly `len` nodes, in list order, and yields each node's key and value |
| Cache.EvictKeepsInv | lru/src/lib.rs:33-38 | popping the tail and removing its key from the index keeps the invariant with one slot less |
| Cache.PushWellFormed | lru/src/list.rs:116-128 | a pushed node gets a fresh id, so the live ids stay allocated and distinct |
| Cache.PushIndexSound | lru/src/lib.rs:40-42 | after push and insert, `refs[key]` names the new head and every other entry still names a live node carrying its key |
| Cache.PushIndexNewest | lru/src/lib.rs:40-42 | after push and insert, no live node ahead of an indexed node carries its key |
| Cache.PushKeepsInv | lru/src/lib.rs:40-42 | pushing a fresh node and indexing it keeps the invariant when there is room |
| Cache.SetKeepsInv | lru/src/lib.rs:32-43 | with capacity at least one, `set` keeps the invariant, `len <= capacity` included |
| Cache.SetFacts | lru/src/lib.rs:32-43 | after `set(k, v)` the head is a fresh node holding k and v, which `refs[k]` names; below capacity the old nodes follow in order and every other key keeps its entry; at capacity the old tail is gone, its key is unindexed and every other key keeps its entry |
| Cache.RepeatedSetGrows | lru/src/lib.rs:32-43 | a `set` of an already indexed key below capacity grows the list by one and leaves the older node for that key in the list, unindexed |
| Cache.ZeroCapacityOverflows | lru/src/lib.rs:33-40 | with capacity 0 nothing is refused: two `set`s give a list of two nodes |
| Cache.MoveKeepsWellFormed | lru/src/lib.rs:52-54 | moving a live node to the front keeps the live ids allocated and distinct |
| Cache.MoveKeepsIndexSound | lru/src/lib.rs:52-54 | moving a live node to the front keeps every index entry naming a live node |
| Cache.MoveKeepsSound | lru/src/lib.rs:52-54 | moving a live node to the front keeps the ids live and distinct and every index entry pointing at a live node with its key |
| Cache.MoveIndexedKeepsNewest | lru/src/lib.rs:52-54 | moving an indexed node to the front keeps every indexed node ahead of its stale namesakes |
| Cache.SetView | lru/src/lib.rs:32-43 | `set` on the cache as a value: when the list holds `capacity` nodes, drop the tail from the list and its key from the index; then push a fresh node with key and value and point `refs[key]` at it (definition; its properties are `SetKeepsInv` and `SetFacts`) |
| Cache.GetView | lru/src/lib.rs:45-60 | `get` on the cache as a value: a key missing from the index gives None and no change; otherwise the indexed node's value, with that node moved to the front (definition; its properties are `GetKeepsInv` and `GetFacts`) |
| Cache.GetKeepsInv | lru/src/lib.rs:45-60 | `get` keeps the invariant |
| Cache.GetFacts | lru/src/lib.rs:45-60 | a key missing from the index yields None and changes nothing; an indexed key yields that node's value, and that node, carrying the key, becomes the head; the live nodes, the index and every stored key and value are unchanged |
| Cache.GetAfterSet | lru/src/lib.rs:32-60 | a `get(k)` right after `set(k, v)` yields v |
| Cache.StaleEvictionDropsKey | lru/src/lib.rs:33-37 | evicting a stale node for k removes k from the index although the newer node for k is still in the list, so `get(k)` misses |
| Cache.ScenarioInv | lru/src/lib.rs:24-43 | the state after setting k, a, b, c and k again on a new cache satisfies the invariant |
| Cache.ScenarioReachesS5 | lru/src/lib.rs:24-43 | those five `set`s from a new cache leave the list k, c, b, a, k (newest first), with k indexed at the head |
| Cache.StaleEvictionScenario | lru/src/lib.rs:33-60 | a sixth `set`, of d, evicts the first node for k; the node holding k's newer value is still second in the list, yet `get(k)` misses |
| Cache.Lru.constructor | lru/src/lib.rs:24-30 | a new cache has capacity 5, an empty index and an empty list |
| Cache.Lru.Set | lru/src/lib.rs:32-43 | the cache moves exactly as `SetView` says (evict at `len == capacity`, then push and index), and stays valid |
| Cache.Lru.Get | lru/src/lib.rs:45-60 | the result and the new cache are exactly `GetView`'s (miss: None and no change; hit: the value and a move to the front), and the cache stays valid |
| Values.NatDigits | lru/src/value.rs:20 | the decimal text of a natural number is a non-empty run of digits with no leading zero |
| Values.DigitsRoundTrip | lru/src/value.rs:20 | the digits of n denote n |
| Values.IntTextShape | lru/src/value.rs:20 | an integer's text starts with '-' exactly when it is negative, and the rest is digits without a leading zero; zero is "0" |
| Values.IntTextRoundTrip | lru/src/value.rs:20 | every `isize` text parses back, as an `i64`, to the same number |
| Values.ToString | lru/src/value.rs:16-23 | `Bool` as "true"/"false", `Int` as its decimal text, `Str` as its payload (definition; its properties are `ToStringCases` and `IntTextRoundTrip`) |
| Values.ToStringCases | lru/src/value.rs:17-23 | `Bool` renders as "true" or "false", `Int(n)` as n's decimal text with '-' exactly for negatives, `Str(s)` as s |
| Values.ParsedHasNoNul | src/command.rs:54 | a text that parses as an `i64` holds no NUL |
| Command.LinesOfJoin | src/command.rs:18 | `lines` undoes the CRLF framing of lines that hold no newline |
| Command.LinesOfEncode | src/command.rs:18 | an encoded request splits into its `*n` header and its `$len`/content pairs |
| Command.Lines | src/command.rs:18 | `str::lines`: cut after each newline, drop the newline and then one carriage return before it, keep a final piece without newline, and give no empty line after a final newline (definition; its property is `LinesOfJoin`) |
| Command.Tokenize | src/command.rs:26-38 | the loop returns what the recursive reading `TokensFrom` from line 1 gives: each `$` line takes the next line verbatim, other lines are skipped, and a `$` on the last line fails |
| Command.TokensOfBulkLines | src/command.rs:26-38 | `$`/content pairs give back exactly their contents, in order, whatever text follows each `$` (declared lengths are never checked) |
| Command.DanglingBulk | src/command.rs:30-32 | a `$` line with nothing after it makes the whole request a malformed bulk string |
| Command.SkipsOtherLines | src/command.rs:35-37 | lines that do not start with '$' contribute nothing |
| Command.TokensOfEncode | src/command.rs:26-38 | the tokenizer recovers the parts of any encoded request |
| Command.ValueAcceptedIff | src/command.rs:54-61 | a SET value is accepted exactly when it holds no NUL; the `i64` test never decides |
| Command.Upper | src/command.rs:44 | `to_uppercase` letter by letter, keeping the length (see Left out) |
| Command.Utf8Len | src/command.rs:76 | `String::len`, the number of bytes of the UTF-8 encoding: one to four per character by code point, so between the number of characters and four times it |
| Command.BulkString | src/command.rs:76 | the GET hit reply: `$`, the byte length, CRLF, the text, CRLF (definition) |
| Command.LinesOfBulkString | src/command.rs:76 | splitting a bulk-string reply into lines gives back the `$<len>` header and the text |
| Command.BulkStringIsData | src/command.rs:76 | a bulk-string reply starts with '$' and is neither the null bulk string nor PONG |
| Command.Dispatch | src/command.rs:44-84 | the match on the uppercased name: SET with three parts stores `Str(value)` and answers OK unless the value is refused; GET with two parts answers the value's bulk string or the null bulk string; PING answers PONG; wrong arity and unknown names get their error replies (definition) |
| Command.Respond | src/command.rs:17-85 | `parse` on a cache state: the invalid-command error without a first line starting with '*', the malformed-bulk error for a dangling `$`, the empty-command error without parts, otherwise `Dispatch` (definition; `Command.Parse` is proved equal to it) |
| Command.NotArrayInvalid | src/command.rs:18-23 | a request that is empty or does not start with '*' gets the invalid-command error and leaves the cache alone |
| Command.EncodedEmpty | src/command.rs:40-42 | an encoded array with no parts gets the empty-command error |
| Command.NoBulkIsEmpty | src/command.rs:26-42 | a request whose first line starts with '*' and whose other lines never start with '$' gets the empty-command error and leaves the cache alone |
| Command.EncodedRequest | src/command.rs:17-44 | a well-formed encoded request is dispatched on exactly its parts |
| Command.EncodedRefusals | src/command.rs:44-83 | SET with other than three parts, GET with other than two, and a name other than SET/GET/PING after uppercasing get their error replies and leave the cache alone |
| Command.EncodedSet | src/command.rs:45-61 | an encoded SET, in any letter case, of a value without NUL replies "+OK" and performs the cache's `set` of `Str(value)`; a value holding a NUL gets "-ERR value must be string or int" and the cache is left alone |
| Command.EncodedGet | src/command.rs:64-80 | an encoded GET replies with the bulk string of the value's text on a hit and "$-1" on a miss, and the cache moves as `get` says |
| Command.EncodedPing | src/command.rs:81 | PING, in any letter case, replies "+PONG" whatever follows and leaves the cache alone |
| Command.SetThenGet | src/command.rs:45-80 | after an encoded SET of k, an encoded GET of k replies with the stored value as a bulk string |
| Command.RespondKeepsInv | src/command.rs:17-85 | every request keeps the cache invariant |
| Command.DispatchKeepsInv | src/command.rs:44-84 | every dispatched command keeps the cache invariant |
| Command.RepliesThatKeepCache | src/command.rs:17-85 | error replies, a GET miss and PONG leave the cache exactly as it was |
| Command.DispatchKeepsCache | src/command.rs:44-84 | a dispatched command that answers an error, the null bulk string or PONG leaves the cache as it was |
| Command.Command.constructor | src/command.rs:11-15 | the handler wraps the given cache |
| Command.Command.Parse | src/command.rs:17-85 | the reply and the new cache are exactly `Respond`'s on the old cache, and the cache stays valid |

## Left out

- `src/main.rs` (TCP listener, per-connection tasks, the 1024-byte read buffer, `write_all`): I/O and concurrency. Its `Command::new()` call takes no argument, while `Command::new` requires an `Lru`, so there is no wiring to model.
- The `Arc<Mutex<Lru>>` around the cache and its `.lock().await`: concurrency. `Command.Parse` works on a plain reference to the cache.
- The `async` on `Lru::set` and `Lru::get`: neither awaits anything, so both are modelled as ordinary methods.
- The `println!` debug output in `parse` and the `fmt::Debug` impl of `List`: output only. The `Debug` head walk is kept as `List.Walk` without the formatting.
- `unsafe impl Send/Sync`, `Box::leak` and `NonNull`: replaced by arena ids. Deallocation is not modelled because the code never frees a node.
- Command.Upper: maps ASCII letters and the two non-ASCII letters whose uppercase is a letter of SET, GET or PING (U+017F to 'S', U+0131 to 'I'), and leaves every other character unchanged. Rust's full `to_uppercase` can change the length of a text, for example 'ß' becomes "SS". No such change can make a name equal SET, GET or PING, so the dispatch is unaffected.
- Command.Lines: follows `str::lines` of current Rust. A '\r' is dropped only before a '\n', so a final line ending in a bare '\r' keeps it.
- The integer widths: `isize` is modelled as 64 bits wide, the width on the targets the server runs on. The `usize` of `len` is modelled as an unbounded natural number; it cannot overflow at capacity 5.
- Values.ParseI64: models `str::parse::<i64>` as an optional '+' or '-', then at least one ASCII digit, then a range check. Only whether it succeeds matters to `parse`.

Three facts about the code that the model keeps:
- `set` never updates an entry in place. A `set` of a key already present pushes a new node.
- The index and the list are not in bijection. Only the one-way invariant that `Inv` states holds.
- The capacity is fixed at 5 by `Lru::new`, and nothing in the code changes it: there are no command-line flags.
