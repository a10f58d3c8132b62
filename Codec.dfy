/**
 * The wire text of servidor.py: colon-separated fields, built by f-strings and taken
 * apart by `message.split(":")` followed by `int(...)` on the numeric fields.
 */
module Codec {
  import opened Wrappers

  const Sep: char := ':'

  /** Python's `s.split(":")` with no limit: every colon separates two fields. */
  function Split(s: string): (parts: seq<string>)
    ensures |parts| >= 1
    ensures forall i :: 0 <= i < |parts| ==> Sep !in parts[i]
    ensures JoinFields(parts) == s
    decreases |s|
  {
    if s == [] then [""]
    else
      var rest := Split(s[1..]);
      if s[0] == Sep then
        assert JoinFields([""] + rest) == [Sep] + JoinFields(rest);
        [""] + rest
      else
        var parts := [[s[0]] + rest[0]] + rest[1..];
        assert parts[1..] == rest[1..];
        parts
  }

  /** `":".join(parts)`: the fields with a colon between neighbours. */
  function JoinFields(parts: seq<string>): string
    requires |parts| >= 1
  {
    if |parts| == 1 then parts[0] else parts[0] + [Sep] + JoinFields(parts[1..])
  }

  /** A field with no colon in it comes back from `split` as one field. */
  lemma {:induction false} SplitField(a: string)
    requires Sep !in a
    ensures Split(a) == [a]
    decreases |a|
  {
    if a != [] {
      SplitField(a[1..]);
      assert [a[0]] + a[1..] == a;
    }
  }

  /** Splitting `a:t` for a colon-free `a` gives `a` followed by the fields of `t`. */
  lemma {:induction false} SplitPrefix(a: string, t: string)
    requires Sep !in a
    ensures Split(a + [Sep] + t) == [a] + Split(t)
    decreases |a|
  {
    var s := a + [Sep] + t;
    if a == [] {
      assert s[1..] == t;
    } else {
      assert s[1..] == a[1..] + [Sep] + t;
      SplitPrefix(a[1..], t);
      assert [a[0]] + a[1..] == a;
    }
  }

  /** `split` undoes `join` on colon-free fields. */
  lemma {:induction false} SplitJoin(parts: seq<string>)
    requires |parts| >= 1
    requires forall i :: 0 <= i < |parts| ==> Sep !in parts[i]
    ensures Split(JoinFields(parts)) == parts
  {
    if |parts| == 1 {
      SplitField(parts[0]);
    } else {
      SplitPrefix(parts[0], JoinFields(parts[1..]));
      SplitJoin(parts[1..]);
    }
  }

  predicate IsDigit(c: char)
  {
    '0' <= c <= '9'
  }

  predicate AllDigits(s: string)
  {
    forall i :: 0 <= i < |s| ==> IsDigit(s[i])
  }

  function DigitChar(d: nat): (c: char)
    requires d < 10
    ensures IsDigit(c) && c as int - '0' as int == d
  {
    (d + '0' as int) as char
  }

  /** The value of a string of decimal digits, most significant first. */
  function DigitsValue(s: string): nat
    requires AllDigits(s)
  {
    if s == [] then 0
    else DigitsValue(s[..|s| - 1]) * 10 + (s[|s| - 1] as int - '0' as int)
  }

  /** `str(n)` for a non-negative `n`: decimal digits without leading zeros. */
  function NatToString(n: nat): (s: string)
    ensures |s| >= 1 && AllDigits(s)
  {
    if n < 10 then [DigitChar(n)] else NatToString(n / 10) + [DigitChar(n % 10)]
  }

  /** `str(n)` for an `int`, as an f-string renders it. */
  function IntToString(n: int): (s: string)
    ensures Sep !in s
  {
    if n < 0 then "-" + NatToString(-n) else NatToString(n)
  }

  /** `int(s)` restricted to an optional minus sign and one or more decimal digits. */
  function ParseInt(s: string): (r: Option<int>)
    ensures r.Some? ==> |s| >= 1
  {
    if |s| >= 1 && s[0] == '-' then
      if |s| >= 2 && AllDigits(s[1..]) then Some(-(DigitsValue(s[1..]) as int)) else None
    else if |s| >= 1 && AllDigits(s) then Some(DigitsValue(s))
    else None
  }

  lemma {:induction false} NatRoundTrip(n: nat)
    ensures DigitsValue(NatToString(n)) == n
  {
    if n >= 10 {
      var s := NatToString(n);
      assert s[..|s| - 1] == NatToString(n / 10);
      NatRoundTrip(n / 10);
    }
  }

  /** `int(str(n)) == n` for every integer. */
  lemma IntRoundTrip(n: int)
    ensures ParseInt(IntToString(n)) == Some(n)
  {
    var s := IntToString(n);
    if n < 0 {
      assert s[1..] == NatToString(-n);
      NatRoundTrip(-n);
    } else {
      NatRoundTrip(n);
    }
  }

  /** The five message kinds of the protocol, plus any other tag that carries an integer sender id. */
  datatype Message =
    | Join(senderId: int, priority: int)
    | Welcome(senderId: int, priority: int)
    | Leave(senderId: int)
    | Chat(senderId: int, text: string)
    | DirectChat(senderId: int, targetId: int, text: string)
    | Unrecognized(kind: string, senderId: int)

  function Kind(m: Message): string
  {
    match m
    case Join(_, _) => "JOIN"
    case Welcome(_, _) => "WELCOME"
    case Leave(_) => "LEAVE"
    case Chat(_, _) => "MESSAGE"
    case DirectChat(_, _, _) => "MESSAGE_TO"
    case Unrecognized(kind, _) => kind
  }

  predicate IsKnownKind(kind: string)
  {
    kind == "JOIN" || kind == "WELCOME" || kind == "LEAVE" || kind == "MESSAGE" || kind == "MESSAGE_TO"
  }

  /** The fields of the wire text the node's own f-strings build. */
  function Fields(m: Message): (fs: seq<string>)
    ensures |fs| >= 2 && fs[0] == Kind(m) && fs[1] == IntToString(m.senderId)
  {
    match m
    case Join(id, p) => ["JOIN", IntToString(id), IntToString(p)]
    case Welcome(id, p) => ["WELCOME", IntToString(id), IntToString(p)]
    case Leave(id) => ["LEAVE", IntToString(id)]
    case Chat(id, text) => ["MESSAGE", IntToString(id), text]
    case DirectChat(id, target, text) => ["MESSAGE_TO", IntToString(id), IntToString(target), text]
    case Unrecognized(kind, id) => [kind, IntToString(id)]
  }

  function Encode(m: Message): string
  {
    JoinFields(Fields(m))
  }

  /**
   * What `handle_message` reads from the split fields before it touches any state: a
   * missing field or a failed `int()` raises, which the listener swallows (None here).
   * Fields beyond the ones a kind reads are ignored.
   */
  function DecodeFields(parts: seq<string>): (r: Option<Message>)
    ensures r.Some? ==> |Fields(r.value)| <= |parts|
    ensures r.Some? ==> |parts| >= 2 && parts[0] == Kind(r.value) && ParseInt(parts[1]) == Some(r.value.senderId)
    ensures r.Some? && r.value.Unrecognized? ==> !IsKnownKind(r.value.kind)
  {
    if |parts| < 2 then None
    else match ParseInt(parts[1])
      case None => None
      case Some(id) =>
        var kind := parts[0];
        if kind == "JOIN" || kind == "WELCOME" then
          if |parts| < 3 then None
          else match ParseInt(parts[2])
            case None => None
            case Some(p) => Some(if kind == "JOIN" then Join(id, p) else Welcome(id, p))
        else if kind == "LEAVE" then Some(Leave(id))
        else if kind == "MESSAGE" then
          if |parts| < 3 then None else Some(Chat(id, parts[2]))
        else if kind == "MESSAGE_TO" then
          if |parts| < 3 then None
          else match ParseInt(parts[2])
            case None => None
            case Some(target) => if |parts| < 4 then None else Some(DirectChat(id, target, parts[3]))
        else Some(Unrecognized(kind, id))
  }

  /**
   * Decoding of one received datagram. A message decodes only when it has at least two
   * fields, its second field is an integer (the sender id) and its first field is the tag.
   */
  function Decode(s: string): (r: Option<Message>)
    ensures |Split(s)| < 2 ==> r == None
    ensures r.Some? ==> Split(s)[0] == Kind(r.value) && ParseInt(Split(s)[1]) == Some(r.value.senderId)
    ensures r.Some? && r.value.Unrecognized? ==> !IsKnownKind(r.value.kind)
    ensures r.Some? ==> |Fields(r.value)| <= |Split(s)|
  {
    DecodeFields(Split(s))
  }

  /** The positions of `Fields(m)` that the decoder reads with `int()`. */
  predicate IntField(m: Message, i: int)
  {
    i == 1 || (i == 2 && (m.Join? || m.Welcome? || m.DirectChat?))
  }

  /**
   * Every field a decoded message holds was read from the text: the tag and a text field
   * equal the field at their position, and the integer fields (sender, priority, target)
   * hold the value `int()` gives for the field at their position. Fields past the ones
   * the kind reads are not constrained: the decoder ignores them. So a message whose kind
   * needs a field the text lacks, or whose integer field does not parse, never decodes.
   */
  lemma DecodeSound(s: string, m: Message)
    requires Decode(s) == Some(m)
    ensures |Fields(m)| <= |Split(s)|
    ensures forall i :: 0 <= i < |Fields(m)| ==>
      if IntField(m, i) then ParseInt(Split(s)[i]) == ParseInt(Fields(m)[i])
      else Split(s)[i] == Fields(m)[i]
  {
    IntRoundTrip(m.senderId);
    match m
    case Join(_, p) => IntRoundTrip(p);
    case Welcome(_, p) => IntRoundTrip(p);
    case DirectChat(_, target, _) => IntRoundTrip(target);
    case _ =>
  }

  /**
   * The converse of `DecodeSound`: text whose fields carry a message's tag and text fields
   * verbatim, and integer fields in any form `int()` reads to the same value (`02`, `-0`),
   * decodes to that message, whatever fields follow.
   */
  lemma DecodeComplete(s: string, m: Message)
    requires m.Unrecognized? ==> !IsKnownKind(m.kind)
    requires |Fields(m)| <= |Split(s)|
    requires forall i :: 0 <= i < |Fields(m)| ==>
      if IntField(m, i) then ParseInt(Split(s)[i]) == ParseInt(Fields(m)[i])
      else Split(s)[i] == Fields(m)[i]
    ensures Decode(s) == Some(m)
  {
    IntRoundTrip(m.senderId);
    match m
    case Join(_, p) => IntRoundTrip(p);
    case Welcome(_, p) => IntRoundTrip(p);
    case DirectChat(_, target, _) => IntRoundTrip(target);
    case _ =>
  }

  /** A message the encoder can render unambiguously: no colon inside a field. */
  predicate WellFormed(m: Message)
  {
    match m
    case Chat(_, text) => Sep !in text
    case DirectChat(_, _, text) => Sep !in text
    case Unrecognized(kind, _) => Sep !in kind && !IsKnownKind(kind)
    case _ => true
  }

  /**
   * The decoder reads back any field sequence that starts with the fields of `m`; the
   * fields after those it reads are ignored.
   */
  lemma DecodeFieldsPrefix(parts: seq<string>, m: Message)
    requires m.Unrecognized? ==> !IsKnownKind(m.kind)
    requires Fields(m) <= parts
    ensures DecodeFields(parts) == Some(m)
  {
    var fs := Fields(m);
    assert parts[0] == fs[0] && parts[1] == fs[1];
    IntRoundTrip(m.senderId);
    match m
    case Join(_, p) =>
      assert parts[2] == fs[2];
      IntRoundTrip(p);
    case Welcome(_, p) =>
      assert parts[2] == fs[2];
      IntRoundTrip(p);
    case Chat(_, _) =>
      assert parts[2] == fs[2];
    case DirectChat(_, target, _) =>
      assert parts[2] == fs[2] && parts[3] == fs[3];
      IntRoundTrip(target);
    case _ =>
  }

  /** Every message the node builds with colon-free text decodes back to itself. */
  lemma EncodeDecode(m: Message)
    requires WellFormed(m)
    ensures Decode(Encode(m)) == Some(m)
  {
    SplitJoin(Fields(m));
    DecodeFieldsPrefix(Fields(m), m);
  }

  /**
   * Only the last field may hold colons: `split` then returns the other fields as they
   * were, followed by the pieces of the last one.
   */
  lemma {:induction false} SplitJoinLast(parts: seq<string>)
    requires |parts| >= 1
    requires forall i :: 0 <= i < |parts| - 1 ==> Sep !in parts[i]
    ensures Split(JoinFields(parts)) == parts[..|parts| - 1] + Split(parts[|parts| - 1])
  {
    if |parts| == 1 {
      assert parts[..0] == [];
    } else {
      var rest, pieces := parts[1..], Split(parts[|parts| - 1]);
      var tail := JoinFields(rest);
      assert Split(JoinFields(parts)) == [parts[0]] + Split(tail) by {
        SplitPrefix(parts[0], tail);
      }
      assert Split(tail) == rest[..|rest| - 1] + pieces by {
        SplitJoinLast(rest);
        assert rest[|rest| - 1] == parts[|parts| - 1];
      }
      FrontThenPieces(parts, pieces);
    }
  }

  /** Sequence bookkeeping for `SplitJoinLast`: the first field, then the rest's front, is the front. */
  lemma FrontThenPieces(parts: seq<string>, pieces: seq<string>)
    requires |parts| >= 2
    ensures [parts[0]] + (parts[1..][..|parts| - 2] + pieces) == parts[..|parts| - 1] + pieces
  {
    assert [parts[0]] + parts[1..][..|parts| - 2] == parts[..|parts| - 1];
  }

  /** Chat text is not escaped: the receiver keeps only the text before its first colon. */
  lemma ChatTextCut(id: int, text: string)
    ensures Decode(Encode(Chat(id, text))) == Some(Chat(id, Split(text)[0]))
  {
    var fs := Fields(Chat(id, text));
    SplitJoinLast(fs);
    DecodeFieldsPrefix(fs[..2] + Split(text), Chat(id, Split(text)[0]));
  }

  /** A direct message's text is cut at its first colon in the same way. */
  lemma DirectTextCut(id: int, target: int, text: string)
    ensures Decode(Encode(DirectChat(id, target, text))) == Some(DirectChat(id, target, Split(text)[0]))
  {
    var fs := Fields(DirectChat(id, target, text));
    SplitJoinLast(fs);
    DecodeFieldsPrefix(fs[..3] + Split(text), DirectChat(id, target, Split(text)[0]));
  }
}
