/**
  The chat relay's connection registry and its three socket handlers.

  `users` maps a connection id to a display name, in insertion order. Each
  handler updates the registry and returns, in emission order, the events it
  broadcasts to every connected client (`io.emit`). Clock readings and message
  ids are parameters.
 */
module Chat {
  import opened Wrappers
  import opened OrderedMap

  type ConnId = string

  /** An outbound broadcast. */
  datatype Event =
    | UserList(names: seq<string>)                                  // "userList"
    | SystemMessage(text: string, time: int)                        // "systemMessage"
    | ChatMessage(id: string, text: string, sender: string, time: int)  // "message"

  const Anonymous: string := "Anonymous"
  const JoinedSuffix: string := " joined the chat."
  const LeftSuffix: string := " left the chat."

  /** JavaScript truthiness of a possibly absent string. */
  predicate Truthy(s: Option<string>)
  {
    s.Some? && s.value != ""
  }

  /**
    `s || "Anonymous"`: a falsy value (absent or empty) becomes "Anonymous";
    any other string, whitespace-only included, is kept as it is.
   */
  function OrAnonymous(s: Option<string>): (r: string)
    ensures r != ""
    ensures Truthy(s) ==> r == s.value
    ensures !Truthy(s) ==> r == Anonymous
  {
    if Truthy(s) then s.value else Anonymous
  }

  /** Every registered name is non-empty, so every lookup of a joined id is truthy. */
  ghost predicate NamesNonEmpty(users: seq<(ConnId, string)>)
  {
    forall i :: 0 <= i < |users| ==> users[i].1 != ""
  }

  ghost predicate Registry(users: seq<(ConnId, string)>)
  {
    DistinctKeys(users) && NamesNonEmpty(users)
  }

  /** Storing a non-empty name keeps the registry invariant. */
  lemma SetRegistry(users: seq<(ConnId, string)>, id: ConnId, name: string)
    requires Registry(users) && name != ""
    ensures Registry(Set(users, id, name))
  {
    SetDistinct(users, id, name);
    if id in Keys(users) {
      var i :| 0 <= i < |users| && users[i].0 == id;
      SetPresent(users, i, name);
    } else {
      SetAbsent(users, id, name);
    }
  }

  /** Deleting an entry keeps the registry invariant. */
  lemma DeleteRegistry(users: seq<(ConnId, string)>, id: ConnId)
    requires Registry(users)
    ensures Registry(Delete(users, id))
  {
    DeleteDistinct(users, id);
    if id in Keys(users) {
      var i :| 0 <= i < |users| && users[i].0 == id;
      DeletePresent(users, i);
    } else {
      DeleteAbsent(users, id);
    }
  }

  /** The server: the module-level `users` map and the handlers bound to each socket. */
  class ChatServer {
    var users: seq<(ConnId, string)>

    ghost predicate Valid()
      reads this
    {
      Registry(users)
    }

    constructor ()
      ensures Valid() && users == []
    {
      users := [];
    }

    /**
      `join`: store `name || "Anonymous"` under the connection id, then
      broadcast the full user list and a "joined" notice for the stored name.
     */
    method Join(id: ConnId, name: Option<string>, time: int) returns (events: seq<Event>)
      requires Valid()
      modifies this
      ensures Valid()
      ensures users == Set(old(users), id, OrAnonymous(name))
      ensures Get(users, id) == Some(OrAnonymous(name))
      ensures events == [UserList(Values(users)), SystemMessage(OrAnonymous(name) + JoinedSuffix, time)]
    {
      SetRegistry(users, id, OrAnonymous(name));
      users := Set(users, id, OrAnonymous(name));
      GetSet(old(users), id, OrAnonymous(name), id);
      var stored := Get(users, id).value;
      events := [UserList(Values(users)), SystemMessage(stored + JoinedSuffix, time)];
    }

    /**
      `message`: broadcast the text unchanged, credited to the registered name
      of the sender, or to "Anonymous" when the connection has not joined.
      The registry is not touched.
     */
    method Message(id: ConnId, text: string, msgId: string, time: int) returns (events: seq<Event>)
      requires Valid()
      ensures |events| == 1 && events[0].ChatMessage?
      ensures events[0].id == msgId && events[0].text == text && events[0].time == time
      ensures id in Keys(users) ==> (id, events[0].sender) in users
      ensures id !in Keys(users) ==> events[0].sender == Anonymous
    {
      var sender := OrAnonymous(Get(users, id));
      events := [ChatMessage(msgId, text, sender, time)];
    }

    /**
      `disconnect`: remove the connection's entry, broadcast the user list in
      every case, and a "left" notice only when the connection had joined.
     */
    method Disconnect(id: ConnId, time: int) returns (events: seq<Event>)
      requires Valid()
      modifies this
      ensures Valid()
      ensures users == Delete(old(users), id)
      ensures id !in Keys(users)
      ensures |events| >= 1 && events[0] == UserList(Values(users))
      ensures |events| == 2 <==> id in Keys(old(users))
      ensures |events| <= 2
      ensures id in Keys(old(users)) ==> events[1] == SystemMessage(Get(old(users), id).value + LeftSuffix, time)
    {
      var name := Get(users, id);
      DeleteRegistry(users, id);
      DeleteDistinct(users, id);
      users := Delete(users, id);
      events := [UserList(Values(users))];
      if Truthy(name) {
        events := events + [SystemMessage(name.value + LeftSuffix, time)];
      }
    }
  }
}
