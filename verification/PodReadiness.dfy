/** The readiness condition of a pod as a list of not-ready keys, each put there by one user agent. */
module PodReadiness {
  import opened Prelude

  datatype Message = Message(userAgent: string, key: string)

  datatype ConditionStatus = True | False | Unset

  /** The condition, as stored in the pod: a status and the messages of those who hold the pod not ready. */
  datatype Condition = Condition(status: ConditionStatus, messages: seq<Message>) {
    predicate Holds(m: Message) { m in messages }
  }

  function Without(messages: seq<Message>, m: Message): seq<Message> {
    if messages == [] then []
    else
      var n := |messages| - 1;
      Without(messages[..n], m) + if messages[n] == m then [] else [messages[n]]
  }

  method AddMessage(messages: seq<Message>, m: Message) returns (changed: bool, result: seq<Message>)
    ensures changed <==> m !in messages
    ensures result == if m in messages then messages else messages + [m]
  {
    for i := 0 to |messages|
      invariant m !in messages[..i]
    {
      if messages[i].userAgent == m.userAgent && messages[i].key == m.key {
        return false, messages;
      }
    }
    return true, messages + [m];
  }

  method RemoveMessage(messages: seq<Message>, m: Message) returns (removed: bool, result: seq<Message>)
    ensures removed <==> m in messages
    ensures result == Without(messages, m)
  {
    removed, result := false, [];
    for i := 0 to |messages|
      invariant removed <==> m in messages[..i]
      invariant result == Without(messages[..i], m)
    {
      assert messages[..i + 1][..i] == messages[..i];
      if messages[i].userAgent == m.userAgent && messages[i].key == m.key {
        removed := true;
      } else {
        result := result + [messages[i]];
      }
    }
    assert messages[..|messages|] == messages;
  }

  /** The condition after a key was added to it; a pod without the condition gets one with an unset status. */
  function Added(c: Option<Condition>, m: Message): Condition {
    match c
    case None => Condition(Unset, [m])
    case Some(c) => if c.Holds(m) then c else Condition(False, c.messages + [m])
  }

  /** The condition after a key was removed from it; it turns true when the last key goes. */
  function Removed(c: Condition, m: Message): Condition {
    if !c.Holds(m) then c
    else
      var rest := Without(c.messages, m);
      Condition(if rest == [] then True else c.status, rest)
  }

  lemma {:induction false} WithoutMember(messages: seq<Message>, m: Message, other: Message)
    ensures other in Without(messages, m) <==> other in messages && other != m
  {
    if messages != [] {
      var n := |messages| - 1;
      WithoutMember(messages[..n], m, other);
      assert messages == messages[..n] + [messages[n]];
    }
  }

  lemma {:induction false} WithoutAbsent(messages: seq<Message>, m: Message)
    requires m !in messages
    ensures Without(messages, m) == messages
  {
    if messages != [] {
      var n := |messages| - 1;
      WithoutAbsent(messages[..n], m);
      assert messages == messages[..n] + [messages[n]];
    }
  }

  /** Keys of different holders do not interfere: adding or removing one leaves every other as it was. */
  lemma KeysAreIndependent(c: Condition, m: Message, other: Message)
    requires other != m
    ensures Added(Some(c), m).Holds(m) && !Removed(c, m).Holds(m)
    ensures Added(Some(c), m).Holds(other) <==> c.Holds(other)
    ensures Removed(c, m).Holds(other) <==> c.Holds(other)
  {
    WithoutMember(c.messages, m, m);
    WithoutMember(c.messages, m, other);
  }

  /** Taking back a key that was not there before restores the keys, and makes the pod ready again exactly when
      nobody else holds it. */
  lemma RemoveUndoesAdd(c: Condition, m: Message)
    requires !c.Holds(m)
    ensures Removed(Added(Some(c), m), m).messages == c.messages
    ensures Removed(Added(Some(c), m), m).status == if c.messages == [] then True else False
  {
    var more := c.messages + [m];
    assert more[..|c.messages|] == c.messages;
    WithoutAbsent(c.messages, m);
  }

  /** The first key makes the condition, with no status; a further one makes it false; one that is there already changes
      nothing; and removing the last one, and only that, makes it true. */
  lemma StatusFollowsKeys(c: Condition, m: Message)
    ensures Added(None, m).messages == [m] && Added(None, m).status == Unset
    ensures c.Holds(m) ==> Added(Some(c), m) == c
    ensures !c.Holds(m) ==> Added(Some(c), m).status == False && Added(Some(c), m).messages == c.messages + [m]
    ensures !c.Holds(m) ==> Removed(c, m) == c
    ensures c.Holds(m) ==>
              Removed(c, m).status == if forall other :: c.Holds(other) ==> other == m then True else c.status
  {
    forall other
      ensures other in Without(c.messages, m) <==> other in c.messages && other != m
    {
      WithoutMember(c.messages, m, other);
    }
    if Without(c.messages, m) != [] {
      var other := Without(c.messages, m)[0];
      assert other in Without(c.messages, m) && c.Holds(other) && other != m;
    }
  }
}
