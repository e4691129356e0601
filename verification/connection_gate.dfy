/**
 The connection gate of a node handle (src/components/CustomHandle.jsx).
 A handle carries a configured limit and is connectable when the limit is
 the "unlimited" value -1 or when fewer connections than the limit are
 already attached. The number of attached connections is supplied by the
 rendering library, so it is a parameter here.
 */
module ConnectionGate {

  /** The limit that means "any number of connections". */
  const Unlimited: int := -1

  /** The limits a message node gives its two handles (src/components/TextUpdaterNode.jsx). */
  const MessageSourceLimit: int := 1
  const MessageTargetLimit: int := Unlimited

  /** Whether a handle with `limit` accepts one more connection when `connections` are attached. */
  predicate IsConnectable(limit: int, connections: nat): (open: bool)
    ensures limit == Unlimited ==> open
    ensures open && limit != Unlimited ==> connections + 1 <= limit
    ensures !open ==> limit != Unlimited && limit <= connections
  {
    limit == Unlimited || connections < limit
  }

  lemma UnlimitedAlwaysConnectable(connections: nat)
    ensures IsConnectable(Unlimited, connections)
  {
  }

  /** Any limit other than -1 is an upper bound on the count, read strictly. */
  lemma ConnectableIffBelowLimit(limit: int, connections: nat)
    requires limit != Unlimited
    ensures IsConnectable(limit, connections) <==> connections < limit
  {
  }

  /** A limit of 0, or a negative limit other than -1, closes the handle for good. */
  lemma DegenerateLimitNeverConnectable(limit: int, connections: nat)
    requires limit <= 0 && limit != Unlimited
    ensures !IsConnectable(limit, connections)
  {
  }

  /** If the gate is open at some count it is open at every smaller count. */
  lemma ConnectableDownwardClosed(limit: int, connections: nat, fewer: nat)
    requires fewer <= connections
    requires IsConnectable(limit, connections)
    ensures IsConnectable(limit, fewer)
  {
  }

  /** A message node's source handle takes only its first connection. */
  lemma MessageSourceConnectableIffFree(connections: nat)
    ensures IsConnectable(MessageSourceLimit, connections) <==> connections == 0
  {
  }

  /** A message node's target handle is always open. */
  lemma MessageTargetAlwaysConnectable(connections: nat)
    ensures IsConnectable(MessageTargetLimit, connections)
  {
  }

  /**
   The connection count of one handle after `attempts` connection
   attempts, where an attempt attaches an edge only while the gate is open.
   */
  function AfterAttempts(limit: int, connections: nat, attempts: nat): (count: nat)
    ensures connections <= count <= connections + attempts
    decreases attempts
  {
    if attempts == 0 then connections
    else
      var next := if IsConnectable(limit, connections) then connections + 1 else connections;
      AfterAttempts(limit, next, attempts - 1)
  }

  /** A handle with a finite limit that starts within it stays within it, however many attempts are made. */
  lemma {:induction false} GatedCountStaysWithinLimit(limit: int, connections: nat, attempts: nat)
    requires limit != Unlimited && connections <= limit
    ensures AfterAttempts(limit, connections, attempts) <= limit
    decreases attempts
  {
    if attempts > 0 {
      var next := if IsConnectable(limit, connections) then connections + 1 else connections;
      GatedCountStaysWithinLimit(limit, next, attempts - 1);
    }
  }

  /** With no limit every attempt attaches an edge. */
  lemma {:induction false} UnlimitedAcceptsEveryAttempt(connections: nat, attempts: nat)
    ensures AfterAttempts(Unlimited, connections, attempts) == connections + attempts
    decreases attempts
  {
    if attempts > 0 {
      UnlimitedAcceptsEveryAttempt(connections + 1, attempts - 1);
    }
  }
}
