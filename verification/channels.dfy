/** The "open Lightning channel" form (src/app/channels.tsx): channel capacity
    in sats, the remote node id, and an explicit confirmation. */
module Channels {
  import opened Js
  import opened Zod

  /** The balance the page assumes the user has; no channel may exceed it. */
  const MaxChannelCapacity: real := 1000000.0

  datatype ChannelForm = ChannelForm(capacity: NumInput, nodeId: Option<string>, confirmation: Option<bool>)

  /** One error slot per field, as the form shows them. */
  datatype ChannelErrors = ChannelErrors(capacity: Option<Message>, nodeId: Option<Message>, confirmation: Option<Message>)

  predicate IsHexDigit(c: char) {
    ('0' <= c <= '9') || ('a' <= c <= 'f') || ('A' <= c <= 'F')
  }

  /** The node-id pattern `^0[2-3][a-fA-F0-9]{64}$`: the hex text of a
      compressed public key (prefix 02 or 03, then the 32-byte x
      coordinate), as in section 2.3.3 of SEC 1. Only the shape is checked,
      not that the point is on the curve. */
  predicate IsNodeId(s: string) {
    && |s| == 66
    && s[0] == '0'
    && (s[1] == '2' || s[1] == '3')
    && forall i :: 2 <= i < 66 ==> IsHexDigit(s[i])
  }

  function Capacity(v: NumInput): (r: Option<Message>)
    ensures r.None? <==> v.Number? && IsInteger(v.value) && 1.0 <= v.value <= MaxChannelCapacity
  {
    match v
    case Number(x) =>
      Then(IsInteger(x), NotAnInteger,
      Then(x > 0.0, NotPositive,
      Then(x >= 1.0, Custom("Channel capacity must be at least 1 sat"),
      Then(x <= MaxChannelCapacity, Custom("Channel capacity cannot exceed your balance of 1000000 sats"), None))))
    case _ => Some(NotANumber)
  }

  /** Validation of the channel form, one error per field. */
  function Validate(f: ChannelForm): (r: ChannelErrors)
    ensures r.capacity.None? <==>
              f.capacity.Number? && IsInteger(f.capacity.value) && 1.0 <= f.capacity.value <= MaxChannelCapacity
    ensures r.nodeId.None? <==> f.nodeId.Some? && IsNodeId(f.nodeId.value)
    ensures r.confirmation.None? <==> f.confirmation == Some(true)
    ensures f.nodeId == Some("") ==> r.nodeId == Some(Custom("Node ID is required"))
  {
    var node := match f.nodeId
      case None => Some(RequiredValue)
      case Some(s) => Then(|s| >= 1, Custom("Node ID is required"), Then(IsNodeId(s), Custom("Invalid Node ID format"), None));
    var confirm := match f.confirmation
      case None => Some(RequiredValue)
      case Some(b) => Then(b, Custom("You must confirm the channel creation"), None);
    ChannelErrors(Capacity(f.capacity), node, confirm)
  }

  predicate Valid(f: ChannelForm) {
    Validate(f) == ChannelErrors(None, None, None)
  }

  /** The form is accepted exactly when the capacity is a whole number of
      sats between 1 and the balance, the node id has the compressed-key
      shape, and the user confirmed. */
  lemma ValidIff(f: ChannelForm)
    ensures Valid(f) <==>
      && f.capacity.Number? && IsInteger(f.capacity.value) && 1.0 <= f.capacity.value <= MaxChannelCapacity
      && f.nodeId.Some? && IsNodeId(f.nodeId.value)
      && f.confirmation == Some(true)
  {
  }

  /** The values the form starts with. */
  const Defaults := ChannelForm(Number(100000.0), Some(""), Some(false))

  /** The initial form cannot be submitted as it is: the node id is empty and
      nothing is confirmed, although the default capacity is in range. */
  lemma DefaultsRejected()
    ensures Validate(Defaults).capacity == None
    ensures Validate(Defaults).nodeId == Some(Custom("Node ID is required"))
    ensures Validate(Defaults).confirmation == Some(Custom("You must confirm the channel creation"))
  {
    assert IsInteger(100000.0) by { assert (100000.0).Floor == 100000; }
  }
}
