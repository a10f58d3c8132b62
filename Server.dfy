/**
 * The `Server` class of servidor.py: the node's membership table, its derived master and
 * the datagrams it sends. The multicast socket is reduced to whether it is open, and
 * `send_message` appends the wire text to `outbox` instead of calling `sendto`.
 */
module Node {
  import opened Wrappers
  import opened MembershipTable
  import opened Codec

  /**
   * The table after `handle_message` has processed a decoded message: JOIN from another
   * node and WELCOME from anyone write the sender's priority, LEAVE pops the sender, and
   * every other kind leaves the table alone.
   */
  function Apply(m: seq<Entry>, msg: Message, selfId: int): seq<Entry>
  {
    match msg
    case Join(id, p) => if id != selfId then Upsert(m, id, p) else m
    case Welcome(id, p) => Upsert(m, id, p)
    case Leave(id) => Remove(m, id)
    case _ => m
  }

  /** The datagrams `handle_message` sends: a WELCOME answers a JOIN from another node. */
  function Replies(msg: Message, selfId: int, selfPriority: int): seq<string>
  {
    if msg.Join? && msg.senderId != selfId then [Encode(Welcome(selfId, selfPriority))] else []
  }

  /** Whether `handle_message` shows the message as chat: every MESSAGE, and MESSAGE_TO addressed here. */
  predicate Shown(msg: Message, selfId: int)
  {
    msg.Chat? || (msg.DirectChat? && msg.targetId == selfId)
  }

  /** The messages that write the sender's priority into the table. */
  predicate Writes(msg: Message, selfId: int)
  {
    msg.Welcome? || (msg.Join? && msg.senderId != selfId)
  }

  /**
   * A decoded message changes at most the sender's entry: JOIN from another node and
   * WELCOME set it, LEAVE removes it, anything else keeps it.
   */
  lemma ApplyGet(m: seq<Entry>, msg: Message, selfId: int, j: int)
    ensures Get(Apply(m, msg, selfId), j) ==
      if j != msg.senderId then Get(m, j)
      else if Writes(msg, selfId) then Some(msg.priority)
      else if msg.Leave? then None
      else Get(m, j)
  {
    match msg
    case Join(id, p) => if id != selfId { UpsertGet(m, id, p, j); }
    case Welcome(id, p) => UpsertGet(m, id, p, j);
    case Leave(id) => RemoveGet(m, id, j);
    case _ =>
  }

  /**
   * Keys stay unique; a newly written sender goes last, a present one keeps its place, and
   * LEAVE of a present sender deletes exactly its entry, the others keeping their order.
   */
  lemma ApplyKeys(m: seq<Entry>, msg: Message, selfId: int)
    requires UniqueKeys(m)
    ensures UniqueKeys(Apply(m, msg, selfId))
    ensures Writes(msg, selfId) && msg.senderId !in Keys(m) ==>
      Keys(Apply(m, msg, selfId)) == Keys(m) + [msg.senderId]
    ensures !msg.Leave? && msg.senderId in Keys(m) ==> Keys(Apply(m, msg, selfId)) == Keys(m)
    ensures msg.Leave? && msg.senderId in Keys(m) ==>
      exists i :: 0 <= i < |m| && m[i].0 == msg.senderId && Apply(m, msg, selfId) == m[..i] + m[i + 1..]
  {
    match msg
    case Join(id, p) =>
      if id != selfId {
        UpsertUnique(m, id, p);
        UpsertKeys(m, id, p);
      }
    case Welcome(id, p) =>
      UpsertUnique(m, id, p);
      UpsertKeys(m, id, p);
    case Leave(id) =>
      RemoveKeys(m, id);
      if id in Keys(m) {
        var i :| 0 <= i < |m| && m[i].0 == id;
        RemovePresent(m, i);
      }
    case _ =>
  }

  /** Handling a message keeps the table a dict. */
  lemma ApplyUnique(m: seq<Entry>, msg: Message, selfId: int)
    requires UniqueKeys(m)
    ensures UniqueKeys(Apply(m, msg, selfId))
  {
    ApplyKeys(m, msg, selfId);
  }

  /** A WELCOME received again changes nothing further. */
  lemma WelcomeIdempotent(m: seq<Entry>, id: int, p: int, selfId: int)
    ensures Apply(Apply(m, Welcome(id, p), selfId), Welcome(id, p), selfId) == Apply(m, Welcome(id, p), selfId)
  {
    UpsertIdempotent(m, id, p);
  }

  /** A node that leaves and is announced again goes to the end of the iteration order. */
  lemma LeaveThenRejoin(m: seq<Entry>, msg: Message, selfId: int)
    requires UniqueKeys(m)
    requires Writes(msg, selfId)
    ensures Apply(Apply(m, Leave(msg.senderId), selfId), msg, selfId)
         == Remove(m, msg.senderId) + [(msg.senderId, msg.priority)]
  {
    RemoveKeys(m, msg.senderId);
    UpsertAbsent(Remove(m, msg.senderId), msg.senderId, msg.priority);
  }

  class Server {
    const serverId: int
    const priority: int
    /** `group_members`, in insertion order. */
    var members: seq<Entry>
    /** `master_id`; None before the first derivation and after leaving. */
    var masterId: Option<int>
    /** Whether `sock` is an open socket (it is None, or closed, otherwise). */
    var sockOpen: bool
    /** Every datagram sent so far, oldest first. */
    var outbox: seq<string>

    /**
     * The table is a dict; a non-empty table implies an open socket (only the join and
     * the listener, which runs only while the socket is open, fill it); a master, once
     * derived, is the master of the current table, and it is None only for an empty table.
     */
    ghost predicate Valid()
      reads this
    {
      UniqueKeys(members)
      && (members != [] ==> sockOpen)
      && (masterId.None? ==> members == [])
      && (masterId.Some? ==> masterId.value == Master(members, serverId))
    }

    constructor (id: int, p: int)
      ensures serverId == id && priority == p
      ensures members == [] && masterId == None && !sockOpen && outbox == []
      ensures Valid()
    {
      serverId, priority := id, p;
      members, masterId, sockOpen, outbox := [], None, false, [];
    }

    /** `send_message`: sending on a missing or closed socket raises, and nothing is sent. */
    method SendMessage(text: string) returns (sent: bool)
      modifies this`outbox
      ensures sent == sockOpen
      ensures outbox == old(outbox) + if sent then [text] else []
    {
      sent := sockOpen;
      if sent {
        outbox := outbox + [text];
      }
    }

    /** `update_master`. */
    method UpdateMaster()
      modifies this`masterId
      ensures masterId == Some(Master(members, serverId))
    {
      if members != [] {
        masterId := Some(members[MaxIndex(members)].0);
      } else {
        masterId := Some(serverId);
      }
    }

    /**
     * `handle_message` on one received datagram. Every field it reads is read before any
     * change, so when the text does not decode (too few fields, a missing field or a
     * failed `int()`), the raised exception leaves every field as it was; otherwise the
     * decoded message is processed. Runs only while the socket is open, as the listener
     * loop checks.
     */
    method HandleMessage(text: string) returns (shown: bool)
      requires Valid() && sockOpen
      modifies this`members, this`masterId, this`outbox
      ensures Valid()
      ensures Decode(text).None? ==>
        members == old(members) && masterId == old(masterId) && outbox == old(outbox) && !shown
      ensures Decode(text).Some? ==>
        var msg := Decode(text).value;
        members == Apply(old(members), msg, serverId)
        && outbox == old(outbox) + Replies(msg, serverId, priority)
        && masterId == Some(Master(members, serverId))
        && shown == Shown(msg, serverId)
    {
      var decoded := Decode(text);
      if decoded.None? {
        return false;
      }
      shown := Process(decoded.value);
    }

    /**
     * The part of `handle_message` after decoding: the branch for the message's tag,
     * then `update_master`.
     */
    method Process(msg: Message) returns (shown: bool)
      requires Valid() && sockOpen
      modifies this`members, this`masterId, this`outbox
      ensures Valid()
      ensures members == Apply(old(members), msg, serverId)
      ensures outbox == old(outbox) + Replies(msg, serverId, priority)
      ensures masterId == Some(Master(members, serverId))
      ensures shown == Shown(msg, serverId)
    {
      shown := false;
      match msg {
        case Join(senderId, senderPriority) =>
          if senderId != serverId {
            members := Upsert(members, senderId, senderPriority);
            var _ := SendMessage(Encode(Welcome(serverId, priority)));
          }
        case Welcome(senderId, senderPriority) =>
          members := Upsert(members, senderId, senderPriority);
        case Leave(senderId) =>
          members := Remove(members, senderId);
        case Chat(_, _) =>
          shown := true;
        case DirectChat(_, targetId, _) =>
          shown := targetId == serverId;
        case Unrecognized(_, _) =>
      }
      ApplyUnique(old(members), msg, serverId);
      UpdateMaster();
    }

    /**
     * `join_group`: refused when the node's own id is already a key; otherwise opens the
     * socket, appends the node's own entry, announces it with JOIN and derives the master.
     */
    method JoinGroup() returns (joined: bool)
      requires Valid()
      modifies this`members, this`masterId, this`sockOpen, this`outbox
      ensures Valid()
      ensures joined <==> serverId !in Keys(old(members))
      ensures !joined ==> members == old(members) && masterId == old(masterId)
                          && sockOpen == old(sockOpen) && outbox == old(outbox)
      ensures joined ==> sockOpen && members == old(members) + [(serverId, priority)]
                         && outbox == old(outbox) + [Encode(Join(serverId, priority))]
                         && masterId == Some(Master(members, serverId))
    {
      if serverId in Keys(members) {
        return false;
      }
      sockOpen := true;
      UpsertAbsent(members, serverId, priority);
      UpsertUnique(members, serverId, priority);
      members := Upsert(members, serverId, priority);
      var _ := SendMessage(Encode(Join(serverId, priority)));
      UpdateMaster();
      joined := true;
    }

    /**
     * `leave_group`: refused when the table is empty; otherwise announces LEAVE, closes
     * the socket, clears the table and forgets the master.
     */
    method LeaveGroup() returns (left: bool)
      requires Valid()
      modifies this`members, this`masterId, this`sockOpen, this`outbox
      ensures Valid()
      ensures left <==> old(members) != []
      ensures !left ==> members == old(members) && masterId == old(masterId)
                        && sockOpen == old(sockOpen) && outbox == old(outbox)
      ensures left ==> outbox == old(outbox) + [Encode(Leave(serverId))]
                       && members == [] && masterId == None && !sockOpen
    {
      if members == [] {
        return false;
      }
      var _ := SendMessage(Encode(Leave(serverId)));
      sockOpen := false;
      members := [];
      masterId := None;
      left := true;
    }

    /** `list_group`: the table in insertion order, read-only (an empty one reads "no server found"). */
    method ListGroup() returns (snapshot: seq<Entry>)
      requires Valid()
      ensures snapshot == members && UniqueKeys(snapshot)
    {
      snapshot := members;
    }

    /** `send_chat_message`: broadcasts MESSAGE; it reaches the wire whenever the node is in a group. */
    method SendChatMessage(text: string) returns (sent: bool)
      requires Valid()
      modifies this`outbox
      ensures Valid()
      ensures sent == sockOpen && (members != [] ==> sent)
      ensures outbox == old(outbox) + if sent then [Encode(Chat(serverId, text))] else []
    {
      sent := SendMessage(Encode(Chat(serverId, text)));
    }

    /** `send_direct_message`: sends MESSAGE_TO exactly when the target is a key of the table. */
    method SendDirectMessage(target: int, text: string) returns (sent: bool)
      requires Valid()
      modifies this`outbox
      ensures Valid()
      ensures sent <==> target in Keys(members)
      ensures outbox == old(outbox) + if sent then [Encode(DirectChat(serverId, target, text))] else []
    {
      if target in Keys(members) {
        sent := SendMessage(Encode(DirectChat(serverId, target, text)));
      } else {
        sent := false;
      }
    }
  }
}
