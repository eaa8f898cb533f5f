/**
  Client sessions with `ChatServer`: short sequences of calls whose broadcasts follow from
  the handlers' contracts alone.
 */
module ChatScenarios {
  import opened Wrappers
  import opened OrderedMap
  import opened Chat

  /** A joined connection's messages are credited to the name it joined with. */
  method JoinThenMessage(id: ConnId, name: string, text: string, msgId: string, t1: int, t2: int)
    returns (sent: seq<Event>)
    requires name != ""
    ensures sent == [ChatMessage(msgId, text, name, t2)]
  {
    var server := new ChatServer();
    var joined := server.Join(id, Some(name), t1);
    sent := server.Message(id, text, msgId, t2);
  }

  /** A connection that never joined may still send; its messages are credited to "Anonymous". */
  method MessageBeforeJoin(id: ConnId, text: string, msgId: string, time: int)
    returns (sent: seq<Event>)
    ensures sent == [ChatMessage(msgId, text, Anonymous, time)]
  {
    var server := new ChatServer();
    sent := server.Message(id, text, msgId, time);
  }

  /**
    Disconnecting without having joined announces nothing, but the user list
    is still broadcast; a second disconnect of a joined connection does the same.
   */
  method DisconnectTwice(id: ConnId, name: string, t1: int, t2: int, t3: int)
    returns (first: seq<Event>, second: seq<Event>, never: seq<Event>)
    requires name != ""
    ensures first == [UserList([]), SystemMessage(name + LeftSuffix, t2)]
    ensures second == [UserList([])]
    ensures never == [UserList([])]
  {
    var server := new ChatServer();
    var joined := server.Join(id, Some(name), t1);
    first := server.Disconnect(id, t2);
    second := server.Disconnect(id, t3);
    var other := new ChatServer();
    never := other.Disconnect(id, t3);
  }

  /** Only falsy names become "Anonymous": an empty name does, a blank one is kept as sent. */
  method BlankNames(a: ConnId, b: ConnId, t: int)
    returns (fromEmpty: seq<Event>, fromBlank: seq<Event>)
    requires a != b
    ensures fromEmpty == [ChatMessage("m1", "hi", Anonymous, t)]
    ensures fromBlank == [ChatMessage("m2", "hi", "   ", t)]
  {
    var server := new ChatServer();
    var e1 := server.Join(a, Some(""), t);
    var e2 := server.Join(b, Some("   "), t);
    fromEmpty := server.Message(a, "hi", "m1", t);
    fromBlank := server.Message(b, "hi", "m2", t);
  }

  /** Two connections that joined as "Ann" and "Bob", in that order. */
  method TwoOnline(a: ConnId, b: ConnId, t: int) returns (server: ChatServer)
    requires a != b
    ensures fresh(server) && server.Valid()
    ensures server.users == [(a, "Ann"), (b, "Bob")]
  {
    server := new ChatServer();
    var e1 := server.Join(a, Some("Ann"), t);
    var e2 := server.Join(b, Some("Bob"), t);
  }

  /** Joining again under a new name keeps the connection's place in the user list. */
  method RejoinKeepsPlace(a: ConnId, b: ConnId, t: int) returns (renamed: seq<Event>)
    requires a != b
    ensures renamed == [UserList(["Anna", "Bob"]), SystemMessage("Anna" + JoinedSuffix, t)]
  {
    var server := TwoOnline(a, b, t);
    SetPresent(server.users, 0, "Anna");
    renamed := server.Join(a, Some("Anna"), t);
    assert server.users == [(a, "Anna"), (b, "Bob")];
    assert Values(server.users) == ["Anna", "Bob"];
  }

  /** A newcomer is listed after everyone already online. */
  method NewcomerLast(a: ConnId, b: ConnId, c: ConnId, t: int) returns (added: seq<Event>)
    requires a != b && b != c && a != c
    ensures added == [UserList(["Ann", "Bob", "Carol"]), SystemMessage("Carol" + JoinedSuffix, t)]
  {
    var server := TwoOnline(a, b, t);
    SetAbsent(server.users, c, "Carol");
    added := server.Join(c, Some("Carol"), t);
    assert Values(server.users) == ["Ann", "Bob", "Carol"];
  }

  /** Three connections that joined as "Ann", "Bob" and "Carol", in that order. */
  method ThreeOnline(a: ConnId, b: ConnId, c: ConnId, t: int) returns (server: ChatServer)
    requires a != b && b != c && a != c
    ensures fresh(server) && server.Valid()
    ensures server.users == [(a, "Ann"), (b, "Bob"), (c, "Carol")]
  {
    server := TwoOnline(a, b, t);
    SetAbsent(server.users, c, "Carol");
    var e3 := server.Join(c, Some("Carol"), t);
  }

  /** A departure is announced under the leaver's name and closes the gap in the user list. */
  method LeaveClosesGap(a: ConnId, b: ConnId, c: ConnId, t: int) returns (left: seq<Event>)
    requires a != b && b != c && a != c
    ensures left == [UserList(["Ann", "Carol"]), SystemMessage("Bob" + LeftSuffix, t)]
  {
    var server := ThreeOnline(a, b, c, t);
    DeletePresent(server.users, 1);
    GetEntry(server.users, 1);
    left := server.Disconnect(b, t);
    assert server.users == [(a, "Ann"), (c, "Carol")];
    assert Values(server.users) == ["Ann", "Carol"];
  }
}
