# Multicast membership and master election — a Dafny model

Each peer process of this system runs one `Server` (servidor.py). The peers share one IP
multicast group. A peer keeps a table of the peers it knows, mapping each peer id to its
priority. From that table it derives a "master": the peer with the highest priority. The
peers exchange five colon-separated text messages: `JOIN`, `WELCOME`, `LEAVE`, `MESSAGE`
and `MESSAGE_TO`.

The model has five modules:

- `Wrappers` (Wrappers.dfy): the `Option` type.
- `MembershipTable` (Table.dfy): the `group_members` dict. It is a sequence of
  (id, priority) entries with distinct ids, kept in insertion order. `Upsert` is `d[k] = v`,
  `Remove` is `d.pop(k, None)` and `Get` is `d.get(k)`. `MaxIndex` and `Master` are the
  `max(d, key=d.get)` election: the highest priority wins, and among equal priorities the
  entry inserted first wins. An empty table elects the node itself.
- `Codec` (Codec.dfy): the wire text. `Split` is `str.split(":")`, `IntToString` is `str(int)`
  and `ParseInt` is `int()`. `Encode` builds the f-strings the node sends. `Decode` reads the
  fields the way `handle_message` does before it changes anything.
- `Node` (Server.dfy): the `Server` class. Its fields are `members`, `masterId`, `sockOpen`
  (whether `sock` is an open socket) and `outbox`, which stands for the datagrams passed to
  `sendto`. Its methods mirror `handle_message`, `update_master`, `join_group`,
  `leave_group`, `list_group`, `send_message`, `send_chat_message` and
  `send_direct_message`. Each method is proved against the pure functions `Apply` (the table
  change a decoded message makes), `Replies`, `Shown`, `Master` and `Encode`. The object
  invariant `Valid()` holds four facts:
  - the table's keys are unique;
  - a non-empty table implies an open socket;
  - a derived master is always the master of the current table;
  - the master is None only when the table is empty.
- `Scenarios` (Scenarios.dfy): runs with several nodes, computed on the tables.

In four places a tidier protocol would behave differently. The model follows the code in
each of them:

- `WELCOME` and `LEAVE` are applied even when they carry the node's own id. Only `JOIN`
  checks for the node's own id (servidor.py:49, 55, 57).
- A datagram with an unknown tag but an integer id still re-derives the master. It is not
  ignored (servidor.py:67).
- The tie-break uses each node's local insertion order. A node inserts itself before it
  learns of the nodes that joined earlier. So two nodes with equal priority each elect
  themselves, and they disagree on the master (`Scenarios.EqualPrioritiesDisagree`).
- Sending before the first join, or after a leave, raises in the code. It is not refused
  with a report. The model says that nothing is sent (`sent == false`).

## Model

| member | source | states |
|---|---|---|
| `MembershipTable.UpsertAbsent` | servidor.py:50 | Writing a key that is not in the dict appends the entry at the end. |
| `MembershipTable.UpsertPresent` | servidor.py:55 | Writing a key that is already in the dict replaces its entry where it stands. Every other entry stays where it was. |
| `MembershipTable.UpsertGet` | servidor.py:55 | After `d[k] = v`, `k` maps to `v` and every other key maps to what it mapped to before. |
| `MembershipTable.UpsertKeys` | servidor.py:50 | `d[k] = v` keeps the order of the existing keys. It adds `k` at the end only when `k` is new. |
| `MembershipTable.UpsertUnique` | servidor.py:50 | `d[k] = v` keeps every key unique. |
| `MembershipTable.UpsertIdempotent` | servidor.py:53-55 | Writing the same key and value twice gives the same table as writing it once. |
| `MembershipTable.RemoveGet` | servidor.py:57 | After `d.pop(k, None)`, `k` is absent and every other key maps to what it mapped to before. |
| `MembershipTable.RemoveAbsent` | servidor.py:57 | Popping a key that is not in the dict changes nothing. |
| `MembershipTable.RemovePresent` | servidor.py:57 | Popping a present key deletes exactly its entry. The other entries keep their order. |
| `MembershipTable.RemoveKeys` | servidor.py:57 | After a pop, the keys are the old keys minus `k`. Uniqueness is kept. |
| `MembershipTable.MaxIndex` | servidor.py:127 | The index that `max(d, key=d.get)` picks holds a priority at least as high as every entry. Every earlier entry has a strictly lower priority. |
| `MembershipTable.MasterIsFirstMax` | servidor.py:124-129 | `Master` of an empty table is the node's own id. Otherwise it is the id of the entry with the highest priority that was inserted first, and no other entry has that property. |
| `MembershipTable.MasterOfUniqueMax` | servidor.py:127 | An id whose priority is strictly above every other entry is the master, whatever the insertion order. |
| `Codec.Split` | servidor.py:40 | `split(":")` returns at least one field. No field contains a colon. Joining the fields with colons gives back the input. |
| `Codec.SplitJoin` | servidor.py:40 | `split(":")` undoes the colon join when no field contains a colon. |
| `Codec.SplitJoinLast` | servidor.py:40 | When only the last field may contain colons, `split` returns the other fields unchanged, followed by the pieces of the last field. |
| `Codec.IntToString` | servidor.py:84 | `str(n)` of an integer never contains a colon. |
| `Codec.IntRoundTrip` | servidor.py:45 | `int(str(n)) == n` for every integer. |
| `Codec.Decode` | servidor.py:40-63 | Text with fewer than two colon-separated fields does not decode. A decoded message takes its tag from the first field and its sender id from the integer in the second field. A decoded message never has more fields than the text. A known tag never decodes as an unknown-tag message. So a JOIN whose priority is missing does not decode at all. |
| `Codec.EncodeDecode` | servidor.py:40-63 | Every message the node builds (lines 52, 84, 97, 115, 120) decodes back to itself when its text contains no colon. |
| `Codec.DecodeSound` | servidor.py:40-63 | Every field of a decoded message was read from the text. The tag and the text fields equal the field at their position. The sender, priority and target equal `int()` of theirs. Fields after the ones the kind reads are not constrained. Together with `Decode`'s clause that a known tag never decodes as an unknown-tag message, text missing a field its kind reads, or with an integer field that does not parse, does not decode. |
| `Codec.DecodeComplete` | servidor.py:40-63 | Text does decode to a message when its tag and text fields match the message's and its integer fields are any text `int()` reads to the same values, such as `02` or `-0`. Fields after the ones the kind reads are ignored. |
| `Codec.ChatTextCut` | servidor.py:60 | A `MESSAGE` whose text contains a colon arrives cut at the text's first colon. |
| `Codec.DirectTextCut` | servidor.py:63 | A `MESSAGE_TO` whose text contains a colon arrives cut at the text's first colon. The sender and the target are kept. |
| `Node.ApplyGet` | servidor.py:47-58 | A decoded message changes at most the sender's entry. JOIN from another node and WELCOME from any node set it. LEAVE removes it. JOIN with the node's own id, MESSAGE, MESSAGE_TO and unknown tags leave it alone. |
| `Node.ApplyUnique` | servidor.py:50-57 | Handling any decoded message keeps the table's keys unique. |
| `Node.ApplyKeys` | servidor.py:47-58 | Handling a message keeps the keys unique. A newly announced sender goes to the end of the key order. A sender already in the table keeps its position. A LEAVE from a sender in the table deletes exactly the sender's entry, and the others keep their order. |
| `Node.WelcomeIdempotent` | servidor.py:53-55 | A WELCOME that is received again changes nothing more. |
| `Node.LeaveThenRejoin` | servidor.py:50-57 | A peer that leaves and is then announced again is re-inserted at the end of the table. |
| `Node.Server.constructor` | servidor.py:14-19 | A new server has an empty table, no master, no socket and has sent nothing. |
| `Node.Server.SendMessage` | servidor.py:109-111 | A datagram reaches the outbox exactly when the socket is open. Otherwise nothing changes. |
| `Node.Server.UpdateMaster` | servidor.py:124-129 | `master_id` becomes the table's master. With an empty table it becomes the node's own id. |
| `Node.Server.HandleMessage` | servidor.py:38-67 | Text that does not decode changes nothing: the table, the master and the outbox all stay the same. Decoded text updates the table by `Apply`, appends exactly the WELCOME reply to a JOIN from another node, and re-derives the master. It shows MESSAGE always and MESSAGE_TO only when the target is this node. It keeps `Valid()`. |
| `Node.Server.Process` | servidor.py:47-67 | For a decoded message: the table becomes `Apply` of the old table, the outbox gains exactly `Replies`, and the master is the new table's master. The chat is shown exactly when `Shown` holds. It keeps `Valid()`. |
| `Node.Server.JoinGroup` | servidor.py:70-88 | Refused, with nothing changed, when the node's id is already a key. Otherwise it opens the socket, appends the node's own entry, sends exactly `JOIN:<id>:<priority>` and sets the master to the table's master. |
| `Node.Server.LeaveGroup` | servidor.py:90-100 | Refused, with nothing changed, when the table is empty. Otherwise it sends exactly `LEAVE:<id>`, closes the socket, empties the table and clears the master. |
| `Node.Server.ListGroup` | servidor.py:102-107 | Returns the table in insertion order, with unique keys, and changes nothing. |
| `Node.Server.SendChatMessage` | servidor.py:113-115 | Appends `MESSAGE:<id>:<text>` exactly when the socket is open, which is always the case while the table is non-empty. |
| `Node.Server.SendDirectMessage` | servidor.py:117-122 | Appends `MESSAGE_TO:<id>:<target>:<text>` exactly when the target is a key of the table. Otherwise nothing is sent. |
| `Scenarios.ThreeNodesJoinSeenBy1` | servidor.py:47-58 | Nodes 1/5, 2/9 and 3/1 join in turn. Node 1 ends with {1:5, 2:9, 3:1} and master 2. |
| `Scenarios.ThreeNodesJoinSeenBy2` | servidor.py:47-58 | In the same run, node 2 ends with the same entries, in its own order, and master 2. |
| `Scenarios.ThreeNodesJoinSeenBy3` | servidor.py:47-58 | In the same run, node 3 ends with the same entries, in its own order, and master 2. |
| `Scenarios.EqualPrioritiesDisagree` | servidor.py:127 | Nodes 1/5 and 2/5 join in that order. Node 1 elects 1 and node 2 elects 2. |

## Left out

- Sockets: creation, `bind`, the multicast `setsockopt`, `recvfrom`, `sendto` and `close`
  are OS I/O. The socket is a boolean. Sending appends to `outbox`, and closing clears the
  boolean.
- The `listen_messages` thread, its busy wait on a missing or closed socket, and its
  `except` that swallows errors are concurrency and blocking I/O. Only their effect is
  modelled: `HandleMessage` runs only while the socket is open, and a failed decode
  changes nothing.
- The concurrent access to `group_members` from the listener and the command loop is not
  modelled. The model is sequential.
- The datagram's byte decoding, its `.strip()`, the empty-message check and the 1024-byte
  receive buffer are left out. `HandleMessage` receives the stripped text. Because the
  whole datagram is stripped (servidor.py:31), a chat text that ends in whitespace arrives
  without it. `EncodeDecode` covers `Decode` alone, not the strip before it.
- `time.sleep(1)` in `join_group` is timing only.
- `print_discovered_servers` and every `print` are console output. The only output kept is
  whether a chat message is shown.
- The `argparse` and `input()` command loop is interactive I/O around the methods the
  model covers. When a send raises, the code ends that loop, and so the process. The
  model does not cover process termination. It reports `sent == false` and changes nothing.
- `join_group` after the node's own entry was removed (by a `LEAVE` carrying its id)
  opens a second socket without closing the first. The model only sets `sockOpen`.
- ParseInt: accepts only an optional `-` followed by one or more ASCII decimal
  digits. Python's `int()` also accepts surrounding whitespace, a leading `+`, underscores
  between digits and non-ASCII digits.
