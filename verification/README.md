# A Dafny model of the list, state cache and embed builder of a C Discord library

This project models three pieces of a small C client library for the Discord API:

- **c-utils/list.c**: the tagged, growable array every other module builds on.
  A list is `{length, size, nodes}`. Each node owns a `{type, size, data}` triple.
  It grows by a factor of 1.5 when `length + 1` reaches `size`.
  It shrinks towards half its slack when a removal leaves it at most a quarter full.
  It never has fewer than 8 slots.
- **state.c**: the user identity cache, which is a get-or-create map keyed by snowflake id.
  Also the gateway presence, which is a four-field record patched field by field.
  Also the parts of `state_init` that refuse a NULL token and install the initial presence.
- **embed.c**: the embed builder. It covers creation, the text, colour and sub-record setters, appending fields and the character count `embed_get_length`.

The model works on values, not pointers. A list is a `ListValue(nodes, capacity)`, and every mutating call becomes a function from the old value to the new one, returning the C boolean where there is one. The shift loops of `list_remove` and `list_insert`, the loop of `list_contains` and the loop of `list_empty` are methods over a `seq` of slots with loop invariants. Each loop method is tied back to the functional definition by its postcondition. A NULL argument is an `Option` that is `None`. State and embed calls take and return `Option<State>` and `Option<Embed>`.

Details of the C arithmetic and signatures that the model keeps:

- **Growth truncates.** `calculate_new_size` converts `s * 1.5` back to `size_t`, rounding down, so 9 slots grow to 13 (c-utils/list.c:25-27).
- **When growth happens.** `list_append` grows as soon as `length + 1 >= size`, so the 8th append to a fresh list grows it from 8 to 12 slots (`ListFacts.GrowthVectors`).
- **Shrink target.** The target is `floor(size - (size - length) * 0.5)`, which is `(size + length) / 2` rounded down. Written as `size - floor(slack / 2)`, it would be one larger when the slack is odd.
- **Presence fields.** `state_set_gateway_presence` stores any status string as given (state.c:228-248). It applies the four presence fields one at a time (state.c:184-270).
- **Signatures.** `embed_init` takes only the state, though embed.h declares a second parameter. `embed_set_image`, `embed_set_thumbnail` and `embed_set_video` take only a url, though embed.h declares a width and a height as well.

## Model

| member | source | states |
|---|---|---|
| TaggedList.NewSize | c-utils/list.c:25-27 | the grown size is strictly larger than the old one and is 1.5 times the growth base (s + 1 for s <= 1), rounded down |
| TaggedList.CapacityAfterAppends | c-utils/list.c:216-248 | a list built from list_init by n appends always has at least 8 slots and more slots than nodes |
| TaggedList.NodeInitPointer | c-utils/list.c:29-48 | a transferring node keeps exactly the kind, size and pointer it was given |
| TaggedList.NodeInit | c-utils/list.c:50-140 | a node copy succeeds exactly when no list or map pointer at any depth is NULL; the result is a copy of the given value in the sense of NodeCopyOf: same kind and size, blobs and strings hold the first size bytes, a map copy holds the same map, a Null node holds nothing, and a nested list is deep-copied node by node |
| TaggedList.Released | c-utils/list.c:142-170 | node_free releases the payload of every node except a Null-typed one |
| TaggedList.GetNode | c-utils/list.c:172-214 | the lookup answers the live node at pos, and nothing for pos at or past the length, whatever kind is expected |
| TaggedList.Init | c-utils/list.c:216-248 | a new list is empty with exactly 8 slots |
| TaggedList.ListCopy | c-utils/list.c:250-293 | the copy succeeds exactly when every node can be copied; it then has the same length, each node is a copy of the source node at the same index, and the capacity is that of a list built by appending |
| TaggedList.CopyFrom | c-utils/list.c:275-290 | the copy loop from index i succeeds exactly when every later node can be copied, and with the earlier nodes already copied its result is a node-by-node copy of the source |
| TaggedList.Resize | c-utils/list.c:295-353 | sizes 0 and below 8 are refused with no change; otherwise the capacity becomes size and the nodes are cut to the first size |
| TaggedList.Grow | c-utils/list.c:769-782 | the growth step keeps the nodes and leaves room for length + 1 nodes plus one free slot |
| TaggedList.GetLength | c-utils/list.c:355-368 | the length never exceeds the slot count, and the positions below it are exactly those where get_node finds a node |
| TaggedList.GetCapacity | c-utils/list.c:370-383 | the slot count is never below 8 |
| ListFacts.GettersAfterAppends | c-utils/list.c:355-383 | after n appends to a fresh list the getters answer n nodes and CapacityAfterAppends(n) slots |
| ListFacts.GettersAfterAppend | c-utils/list.c:355-383 | a fresh list answers 0 nodes in 8 slots; an append adds one node and grows the slots to NewSize when the new length reaches them |
| ListFacts.GettersAfterRemove | c-utils/list.c:355-368 | removing a live node takes one from the length; a bad index changes neither getter |
| TaggedList.GetItemSize | c-utils/list.c:385-393 | the size of the node at pos, or 0 for a bad index |
| TaggedList.GetType | c-utils/list.c:418-426 | the kind of the node at pos, or the reserved error tag for a bad index |
| TaggedList.GetPayload | c-utils/list.c:428-519 | the typed getters give the stored payload at pos, and nothing exactly for a bad index |
| TaggedList.ReplaceNode | c-utils/list.c:521-561 | replacement fails unless pos is live and the node exists; then only slot pos changes, and length and capacity are kept |
| TaggedList.ListReplace | c-utils/list.c:563-603 | a copying replacement fails for a bad index or an uncopyable value and then changes nothing; otherwise only slot pos changes and it holds a copy of the given value |
| TaggedList.ListReplacePointer | c-utils/list.c:521-561 | a transferring replacement succeeds exactly for a live pos, puts the given node there and keeps every other node |
| TaggedList.AppendNode | c-utils/list.c:711-755 | an append leaves a free slot, follows the growth rule, places the node last and keeps earlier nodes; a failed node leaves the nodes unchanged |
| TaggedList.ListAppend | c-utils/list.c:757-801 | a copying append succeeds exactly when the value is copyable; the old nodes form the prefix and the last node is a copy of the given value |
| TaggedList.ListAppendPointer | c-utils/list.c:711-755 | a transferring append always succeeds and adds exactly the given node at the end |
| TaggedList.InsertNode | c-utils/list.c:605-656 | an insert past the length is an append; otherwise the node lands at pos and the nodes from pos on move one slot right |
| TaggedList.ListInsert | c-utils/list.c:658-709 | a copying insert grows the slots by the append rule; past the length it equals a copying append; otherwise earlier nodes are kept, a copy of the given value is at pos, and later nodes are shifted by one |
| TaggedList.ListInsertPointer | c-utils/list.c:605-656 | a transferring insert always succeeds, grows the slots by the append rule, and places the given node at pos, or appends it past the end |
| TaggedList.ListRemove | c-utils/list.c:825-882 | a bad index changes nothing; otherwise exactly node pos is deleted with order kept, a free slot remains, and the capacity is kept unless the list is at most a quarter full and the target is at least 8, in which case it becomes (size + length) / 2 |
| TaggedList.PopAsWritten | c-utils/list.c:803-823 | as written: a bad index with a data out-pointer writes through NULL, and without one reports the error tag, size 0 and no payload and leaves the list alone; otherwise the kind, size and payload are reported, the list is what remove leaves, and the payload is freed only when no data out-pointer was passed |
| TaggedList.Pop | c-utils/list.c:803-823 | the guarded pop never faults; a bad index reports the error tag, size 0 and NULL and leaves the list unchanged |
| TaggedList.FreedBy | c-utils/list.c:902-904 | every payload of a non-Null live node is released, and nothing else is |
| TaggedList.ListFree | c-utils/list.c:890-908 | list_free releases exactly the payloads of the non-Null live nodes |
| ListLoops.RemoveShiftAsWritten | c-utils/list.c:849-851 | the as-written shift deletes index pos from the live prefix but needs a slot past the length |
| ListLoops.RemoveShift | c-utils/list.c:849-851 | the corrected shift deletes index pos while reading only live slots |
| ListLoops.RemoveInSlots | c-utils/list.c:825-882 | list_remove over a slot array, with shift, decrement and realloc shrink, yields the list ListRemove describes |
| ListLoops.InsertShift | c-utils/list.c:701-705 | the backward shift puts the node at pos with later live nodes one slot right, and leaves slots past length untouched |
| ListLoops.InsertInSlots | c-utils/list.c:658-709 | list_insert over a slot array, with grow, shift and place, yields InsertNode's list |
| TaggedList.MemCompare | c-utils/list.c:410 | the comparison of the probe with a node's payload reads NULL exactly when the size is non-zero and the payload is NULL, and compares equal exactly when the size is 0 or the payload's first size bytes equal the probe's; so a list or map node of non-zero size compares different |
| ListLoops.ContainsScan | c-utils/list.c:395-416 | the scan stops at the first node of the probed size that does not compare equal: it answers true when that node's bytes differ and faults when its payload is NULL; it answers false exactly when every node of that size compares equal |
| ListLoops.ContainsGuarded | c-utils/list.c:395-416 | the corrected scan answers true exactly when some node of the probed size has the same bytes, and never reads a NULL payload |
| ListLoops.EmptyAsWritten | c-utils/list.c:884-888 | as written, list_empty leaves exactly the nodes at odd indices, half the length rounded down |
| ListLoops.Empty | c-utils/list.c:884-888 | the corrected loop removes every node and never grows the list |
| ListFacts.AppendAllShape | c-utils/list.c:757-801 | appending n nodes to a fresh list keeps them in order and leaves CapacityAfterAppends(n) slots with one free |
| ListFacts.GrowthVectors | c-utils/list.c:25-27 | from list_init the 8th append grows 8 slots to 12, the 12th grows 12 to 18 and the 18th grows 18 to 27 |
| ListFacts.GrowthIsTruncatedProduct | c-utils/list.c:25-27 | the integer growth equals the floor of the real product base * 1.5 |
| ListFacts.ShrinkTriggerIsLoadBound | c-utils/list.c:855-857 | the load test length / size <= 0.25 holds exactly when 4 * length <= size |
| ListFacts.ShrinkTargetIsTruncatedDifference | c-utils/list.c:858 | the real-valued shrink target, truncated, equals (size + length) / 2 |
| ListFacts.ShrinkKeepsAFreeSlot | c-utils/list.c:855-881 | whenever the shrink fires, its target lies strictly between the length and the old size |
| ListFacts.NormalNodeCopiesToItself | c-utils/list.c:50-140 | copying a node that already has copied shape gives the same node |
| ListFacts.NormalListCopiesToItself | c-utils/list.c:250-293 | copying a list that already has copied shape gives the same list |
| ListFacts.NormalPrefixCopiesToItself | c-utils/list.c:275-290 | the copy loop over such a list, started from any prefix, reproduces it |
| ListFacts.CopyIsIdempotent | c-utils/list.c:250-293 | a copy of a copy equals the copy |
| ListFacts.CopyAgreesWithTransfer | c-utils/list.c:711-801 | for a value already in copied shape, list_append and list_append_pointer give the same list |
| ListFacts.AppendThenGet | c-utils/list.c:757-801 | an appended blob reads back at the old length with its kind, size and first size bytes |
| ListFacts.ReplaceThenGet | c-utils/list.c:563-603 | a blob written by list_replace reads back at its position with its kind, size and first size bytes, and every other position reads as before |
| ListFacts.CopyThenGet | c-utils/list.c:250-293 | every blob of a copied list reads back with the kind, size and first size bytes of the original node |
| ListFacts.GetIgnoresExpectedKind | c-utils/list.c:172-214 | the expected kind only causes a log line and never changes a getter's answer |
| ListFacts.AppendThenRemove | c-utils/list.c:825-851 | removing the last node of an append restores the original nodes |
| ListFacts.InsertThenRemove | c-utils/list.c:605-656 | removing the node an insert placed restores the original nodes |
| ListFacts.InsertAtEndIsAppend | c-utils/list.c:669-671 | an insert at or past the length is exactly an append |
| ListFacts.PopKeepsPayloadAlive | c-utils/list.c:814-822 | a pop with a data out-pointer hands over the payload, frees nothing and leaves the list a remove leaves |
| ListFacts.ContainsAsWrittenMissesEqualBytes | c-utils/list.c:407-413 | a list holding exactly the probed bytes is not reported by the code as written, and the intended test finds it |
| ListFacts.ContainsAsWrittenFindsDifferentBytes | c-utils/list.c:407-413 | a node with the same size but different bytes is reported by the code as written, and the intended test rejects it |
| ListFacts.AppendedBlobIsContained | c-utils/list.c:395-416 | after a blob is appended, the intended containment test finds it |
| ListFacts.ContainsAfterAppend | c-utils/list.c:395-416 | after an append the intended test holds exactly when it held before or the appended node matches |
| ListFacts.ContainsAfterRemove | c-utils/list.c:825-851 | after a remove the intended test holds only if it held before |
| ListFacts.NullNodeOfProbedSizeFaults | c-utils/list.c:407-413 | a Null node of four bytes, which list_append keeps, makes a four-byte probe stop at it and read through NULL as written, while the intended test answers false |
| ListFacts.EmptyAsWrittenLeavesNodes | c-utils/list.c:884-888 | as written, list_empty on two or more nodes leaves the list non-empty, starting with the old second node |
| ListFacts.PopAsWrittenDereferencesNull | c-utils/list.c:814-819 | popping index 0 of an empty list with a data out-pointer faults as written and is harmless when guarded |
| ListFacts.ResizeCanFillEverySlot | c-utils/list.c:295-353 | list_resize can leave as many nodes as slots, which the as-written remove shift cannot handle |
| DiscordState.ParseSnowflake | state.c:314-326 | an id string is accepted exactly when it is a non-empty decimal number below 2^64, and its value is that number |
| DiscordState.IdOf | state.c:299-314 | the id is what snowflake_from_string makes of the "id" member, and is absent when that member is missing or does not parse |
| DiscordState.GetUser | state.c:376-403 | a lookup answers the cached user for the id, and NULL for a NULL state or an id that is not cached |
| DiscordState.SetUser | state.c:277-374 | get-or-create: a hit returns the cached instance and changes nothing; a miss caches and returns the built user only when construction and insertion both succeed; every failure leaves the cache alone, no cached entry is replaced, and the cache stays keyed by id |
| DiscordState.SetPresence | state.c:150-275 | the patch succeeds exactly for a non-NULL state and overlays the given fields on the stored presence, or on an empty one when none is stored |
| DiscordState.StateInit | state.c:7-62 | a NULL token gives NULL; otherwise the token and intent are kept, the cache is empty and keyed by id, and the presence is absent when the options carry none, otherwise exactly their since, activities, status and afk |
| StateFacts.SetUserThenGetUser | state.c:277-403 | after a successful get-or-create, a lookup of the data's id returns the same user |
| StateFacts.SetUserTwiceHitsCache | state.c:328-332 | a second get-or-create with the same data returns the same instance and changes nothing |
| StateFacts.FailedMissCachesNothing | state.c:334-371 | a miss whose construction or insertion fails returns NULL and leaves the id uncached |
| StateFacts.EmptyPatchKeepsPresence | state.c:184-272 | a patch with every field absent keeps a stored presence, and on a state with none stores four absent fields |
| StateFacts.PatchesCompose | state.c:150-275 | two patches in a row equal one patch whose fields come from the second, falling back to the first |
| StateFacts.AfkOnlyPatchKeepsOthers | state.c:250-270 | a patch that sets only afk keeps since, activities and status |
| StateFacts.AnyStatusAccepted | state.c:228-248 | every status string is stored as given |
| StateFacts.PatchLeavesCacheAlone | state.c:150-275 | a presence patch touches neither the user cache nor the token |
| StateFacts.DecimalRoundTrip | state.c:315 | the decimal rendering of a number reads back as that number |
| StateFacts.SnowflakeRoundTrip | user.c:8-36 | every snowflake written in decimal is accepted and parsed back to itself |
| Embeds.EmbedInit | embed.c:384-414 | a NULL state gives NULL; otherwise every text is empty, the colour is 0 and every sub-record and the field list are absent |
| Embeds.SetText | embed.c:551-609 | each of the title, description, url and timestamp calls fails exactly for a NULL embed; otherwise it stores the string in its own member and leaves every other member unchanged |
| Embeds.SetColor | embed.c:611-626 | colour 0 stores the default and any other value is stored as given; with a non-zero default the stored colour is never 0 |
| Embeds.SetFooter | embed.c:628-668 | the footer is cleared exactly when both strings are NULL; otherwise it holds them, with an omitted one empty |
| Embeds.SetImage | embed.c:670-704 | the image is cleared exactly for a NULL url; otherwise it holds the url with zero height and width |
| Embeds.SetThumbnail | embed.c:706-740 | the thumbnail is cleared exactly for a NULL url; otherwise it holds the url with zero height and width |
| Embeds.SetVideo | embed.c:742-776 | the video is cleared exactly for a NULL url; otherwise it holds the url with zero height and width |
| Embeds.SetProvider | embed.c:778-818 | the provider is cleared exactly when both strings are NULL; otherwise it holds them, with an omitted one empty |
| Embeds.SetAuthor | embed.c:820-872 | the call fails, changing nothing, when a url or icon url comes without a name; with a name the url is stored if given and the icon url only when the url is NULL; three NULLs clear the author |
| Embeds.AddField | embed.c:874-952 | the call succeeds exactly when embed, name and value are all non-NULL; the list is then created if needed, the old fields are kept, and the new field with its inline flag comes last |
| Embeds.FieldsLengthAppend | embed.c:440-445 | one more field adds its name's and value's characters to the count |
| Embeds.GetLength | embed.c:416-449 | the counting loop computes the title, description, footer text, author name and field characters, and 0 for a NULL embed |
| Embeds.GetLengthAsWritten | embed.c:416-449 | as written the count faults exactly when the embed exists and its description pointer is NULL; with a buffer behind the pointer it is the model's count |
| EmbedFacts.InitHasNoLength | embed.c:384-449 | with the description read as "", a fresh embed counts no characters |
| EmbedFacts.AddFieldAddsItsText | embed.c:874-952 | a successful field addition raises the count by the name's and value's lengths, and a failed one leaves the count unchanged |
| EmbedFacts.TitleCountsOnce | embed.c:430 | replacing the title changes the count by the difference of the old and new titles' lengths |
| EmbedFacts.UncountedSettersKeepLength | embed.c:416-449 | image, thumbnail, video, provider, url, timestamp and colour never change the count |
| EmbedFacts.ClearingAuthorDropsName | embed.c:820-872 | clearing the author takes its name's characters out of the count |
| EmbedFacts.NullEmbedRefused | embed.c:551-952 | every builder call on a NULL embed returns false and changes nothing, and a NULL embed counts 0 |
| EmbedFacts.SubRecordSettersIdempotent | embed.c:628-872 | calling a sub-record setter twice with the same arguments is the same as calling it once |
| EmbedFacts.FooterIsNotMerged | embed.c:640-665 | a second footer call with a NULL icon url does not keep the first call's icon url |
| EmbedFacts.FieldsKeepOrder | embed.c:874-952 | fields added one after another come out in the order they were added |
| EmbedFacts.FieldsLengthSplits | embed.c:440-445 | the field count splits over concatenating two runs of fields |
| EmbedFacts.LengthAsWrittenFaultsAfterInit | embed.c:384-449 | on a fresh embed the as-written count calls strlen on the NULL description, while the model's count is 0 |
| EmbedFacts.LengthAsWrittenAgreesWithBuffer | embed.c:416-449 | when the description pointer refers to a buffer, the as-written count equals the model's count |

## Left out

- Allocation failures (`calloc`, `malloc`, `realloc`, json-c constructors) are not modelled: every allocation succeeds. list_resize's and node_init's out-of-memory paths, and the presence patch's failure paths that free the stored presence object, are therefore absent.
- NULL list pointers passed to the list functions are not modelled. Most list functions check for one, log, and return false, 0 or NULL. list_empty (c-utils/list.c:885) reads `l->length` without a check, and list_pop given a data out-pointer (c-utils/list.c:817-819) writes through the NULL node that get_node answers for a NULL list.
- Logging is left out.
- list_get_double is left out, because the model has no floating point values. The other typed getters return the raw payload, and decoding bytes into a C `bool`, `char`, `int64_t` or `size_t` is not modelled.
- TaggedList.GetPayload: does not model the scalar decoding of each typed getter, only which payload it reads. list_get_bool, list_get_char, list_get_int and list_get_size_t dereference the node's data (c-utils/list.c:435, 445, 465, 475), so on a node with a NULL payload, such as a Null node, they fault. The model returns the NoData payload there instead.
- TaggedList.NodeInit: a String node is copied with string_copy into a buffer of size + 1 bytes (c-utils/list.c:103-118). str.h is not part of this model, so the copy is taken to hold the first size bytes of the source; the terminating NUL and a source string shorter than size are not modelled. A map is copied with map_copy (c-utils/list.c:84). map.c is not part of this model either: a map is an opaque token, and the copy is taken to hold the same map, failing only for NULL.
- ListLoops.ContainsScan: when a list or map node has the probed size, list_contains compares the bytes of its C struct with the probe. The model takes those bytes to differ from every probe, so the as-written scan answers true there. A byte-buffer node shorter than the probe size is excluded by the precondition, because memcmp would read past the buffer.
- TaggedList.ListFree: states which payloads are released, not that each is released exactly once or in index order.
- TaggedList.Resize: does not report the payloads of the nodes it truncates; TaggedList.FreedBy describes that release for list_free only.
- TaggedList.ReplaceNode: does not report the payload of the replaced node that node_free releases (c-utils/list.c:556); ListReplace and ListReplacePointer share this gap (c-utils/list.c:598).
- TaggedList.ListRemove: does not report the payload of the removed node that node_free releases (c-utils/list.c:847); TaggedList.PopAsWritten reports it for list_pop.
- DiscordState.SetPresence: holds only under the record abstraction. In each keep-the-prior-value branch (state.c:200-204, 222-226, 244-248, 266-270), the value fetched with json_object_object_get is added back under the same key with json_object_object_add without taking a reference first. json-c is not part of this model; if that add releases the value it replaces, every kept field is freed while it is still installed. discord_set_presence with a NULL presence (discord.c:150-156) takes this path for all four fields. The model keeps the prior value, which is what the code evidently intends.
- `list_to_json_array` and the JSON form of the presence are not part of this model. The presence is a record of four optional fields, the activities are a list value, and an absent field stands for a missing or null JSON member.
- DiscordState.ParseSnowflake: snowflake.c is not part of this model. An id is taken to be an unsigned decimal below 2^64. Signs, whitespace and leading `+` are not accepted.
- DiscordState.SetUser: user_init and map_set are not part of this model. Their outcomes arrive as the parameters `built` and `stored`, and the only thing assumed of user_init is that it builds a user with the id of the same data.
- DiscordState.StateInit: the logger, http_init, and the channel, guild and message maps are left out, along with their failure paths. The intent is stored but not checked.
- state_get_gateway_presence, state_get_gateway_presence_string and state_free are left out, because they only render or release the state.
- Embeds.SetText: string_copy (str.h is not part of this model) is taken to store the whole string. Truncation to the fixed buffer sizes of embed.h, and string_copy's own answer, are not modelled. The same holds for every other text setter, the sub-record setters and AddField. A NULL string passed to a text setter is not modelled either.
- Embeds.GetLength: the count is unbounded. A `size_t` wrap-around is not modelled. `embed->description` is a NULL pointer after embed_init, and embed_get_length calls strlen on it. The model treats the description as an empty string.
- The `state` back-pointer an embed keeps is left out.
- DISCORD_EMBED_DEFAULT_COLOR is not defined in the files this model follows, so it is a parameter of SetColor.
- embed_add_field hands list_append a `list_item` record, which does not match list_append's parameters in c-utils/list.c. The model keeps the fields as a sequence and does not route them through the list model.
- embed_to_json, the set_embed_json_* helpers, embed_list_from_json_array and embed_free are left out, because they render, parse or release rather than build. embed_remove_field is declared in embed.h but defined nowhere in the source.

## Findings

| source | as written | input that shows it | evidently intended | confidence | as-written member | corrected member |
|---|---|---|---|---|---|---|
| c-utils/list.c:410 | a node matches when its size equals the probe size and memcmp is non-zero, that is, when the bytes differ | a list holding one 1-byte node `[7]`, probed with `[7]`, answers false; probed with `[9]`, it answers true | a node matches when memcmp returns 0 | high (not executed) | ListFacts.ContainsAsWrittenMissesEqualBytes | ListLoops.ContainsGuarded |
| c-utils/list.c:884-888 | list_empty removes index 0, 1, 2, … while the index is below the shrinking length, so every other node survives | any list of two or more nodes; from `[a, b]` it leaves `[b]` | remove until the list is empty | high (not executed) | ListLoops.EmptyAsWritten | ListLoops.Empty |
| c-utils/list.c:849-851 | the remove shift runs `index < length` and reads `nodes[index + 1]`, so its last step reads slot `length` | eight nodes in twelve slots, list_resize to 8, then list_remove at 0: the last step reads slot 8 of an 8-slot array | stop at `index + 1 < length` | medium (not executed) | ListFacts.ResizeCanFillEverySlot | ListLoops.RemoveShift |
| c-utils/list.c:814-819 | with a data out-pointer, list_pop writes the node's fields even when get_node returned NULL | list_pop on an empty list at position 0 with a data out-pointer | only reset the node when it exists | high (not executed) | TaggedList.PopAsWritten | TaggedList.Pop |
| c-utils/list.c:410 | memcmp reads the node's data whenever the node has the probed size, even when that data is NULL | list_append(l, L_TYPE_NULL, 4, NULL) keeps a Null node of size 4; list_contains(l, 4, probe) then calls memcmp(probe, NULL, 4) | a node with a NULL payload never matches | high (not executed) | ListFacts.NullNodeOfProbedSizeFaults | ListLoops.ContainsGuarded |
| embed.c:430 | embed_get_length calls strlen on `embed->description`, a pointer that embed_init leaves NULL and nothing in embed.c ever sets; embed_set_description copies into the same NULL pointer (embed.c:578) | embed_init on any state, then embed_get_length | the description is a buffer like the title, counted as its string length, "" when unset | high (not executed) | EmbedFacts.LengthAsWrittenFaultsAfterInit | Embeds.GetLength |
