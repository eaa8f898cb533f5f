/**
  The registry after a sequence of handler calls, and what it holds stated
  without reference to the map operations: the user list has one entry per
  connection that joined and has not disconnected since, carrying the name of
  its latest join, ordered by the join that opened its current session.
 */
module Replay {
  import opened Wrappers
  import opened OrderedMap
  import opened Chat

  /** An inbound socket event, as far as it affects the registry. */
  datatype Call =
    | JoinCall(id: ConnId, name: Option<string>)
    | MessageCall(id: ConnId, text: string)
    | DisconnectCall(id: ConnId)

  /** The registry change each `ChatServer` handler makes (see their ensures). */
  function Step(users: seq<(ConnId, string)>, c: Call): seq<(ConnId, string)>
  {
    match c
    case JoinCall(id, name) => Set(users, id, OrAnonymous(name))
    case MessageCall(_, _) => users
    case DisconnectCall(id) => Delete(users, id)
  }

  /** The registry after handling `t` in order, starting from the empty map. */
  function Run(t: seq<Call>): seq<(ConnId, string)>
  {
    if t == [] then [] else Step(Run(t[..|t| - 1]), t[|t| - 1])
  }

  /** Connection `id` has joined and not disconnected since. */
  predicate Live(t: seq<Call>, id: ConnId)
  {
    if t == [] then false
    else
      var p := t[..|t| - 1];
      match t[|t| - 1]
      case JoinCall(j, _) => j == id || Live(p, id)
      case MessageCall(_, _) => Live(p, id)
      case DisconnectCall(j) => j != id && Live(p, id)
  }

  /** The display name given by the latest join of `id` ("Anonymous" if it never joined). */
  function LastName(t: seq<Call>, id: ConnId): string
  {
    if t == [] then Anonymous
    else
      match t[|t| - 1]
      case JoinCall(j, name) => if j == id then OrAnonymous(name) else LastName(t[..|t| - 1], id)
      case _ => LastName(t[..|t| - 1], id)
  }

  /** The position in `t` of the join that opened the current session of `id`. */
  function SessionStart(t: seq<Call>, id: ConnId): nat
  {
    if t == [] then 0
    else
      var p := t[..|t| - 1];
      match t[|t| - 1]
      case JoinCall(j, _) => if j == id && !Live(p, id) then |p| else SessionStart(p, id)
      case _ => SessionStart(p, id)
  }

  /**
    What the registry `users` should be after `t`: it keeps its invariant,
    holds exactly the live connections under their latest names, and lists
    them in the order their current sessions began.
   */
  ghost predicate Consistent(t: seq<Call>, users: seq<(ConnId, string)>)
  {
    Registry(users) && Tracks(t, users) && InSessionOrder(t, users)
  }

  /** `users` holds exactly the live connections of `t`, under their latest names. */
  ghost predicate Tracks(t: seq<Call>, users: seq<(ConnId, string)>)
  {
    forall id :: Get(users, id) == if Live(t, id) then Some(LastName(t, id)) else None
  }

  /** The entries of `users` are sorted by the start of their sessions in `t`. */
  ghost predicate InSessionOrder(t: seq<Call>, users: seq<(ConnId, string)>)
  {
    && (forall i :: 0 <= i < |users| ==> SessionStart(t, users[i].0) < |t|)
    && (forall i, j :: 0 <= i < j < |users| ==>
          SessionStart(t, users[i].0) < SessionStart(t, users[j].0))
  }

  /** Registry consistency: every sequence of calls leaves the registry `Consistent`. */
  lemma {:induction false} RunConsistent(t: seq<Call>)
    ensures Consistent(t, Run(t))
  {
    if t != [] {
      var p, c := t[..|t| - 1], t[|t| - 1];
      assert t == p + [c];
      RunConsistent(p);
      match c
      case JoinCall(id, name) => JoinConsistent(p, id, name);
      case MessageCall(_, _) =>
      case DisconnectCall(id) => DisconnectConsistent(p, id);
    }
  }

  /** Taking the last call off `p + [c]` gives back `p`. */
  lemma Snoc(p: seq<Call>, c: Call)
    ensures (p + [c])[..|p|] == p && (p + [c])[|p|] == c
  {
  }

  /** A join starts a session for `id` unless it is live, and leaves every other connection as it was. */
  lemma JoinStep(p: seq<Call>, id: ConnId, name: Option<string>, x: ConnId)
    ensures Live(p + [JoinCall(id, name)], x) == (x == id || Live(p, x))
    ensures LastName(p + [JoinCall(id, name)], x) == if x == id then OrAnonymous(name) else LastName(p, x)
    ensures SessionStart(p + [JoinCall(id, name)], x) ==
              if x == id && !Live(p, x) then |p| else SessionStart(p, x)
  {
    Snoc(p, JoinCall(id, name));
  }

  /** A join keeps the registry consistent with the lengthened trace. */
  lemma JoinConsistent(p: seq<Call>, id: ConnId, name: Option<string>)
    requires Consistent(p, Run(p))
    ensures Consistent(p + [JoinCall(id, name)], Run(p + [JoinCall(id, name)]))
  {
    var t, r, n := p + [JoinCall(id, name)], Run(p), OrAnonymous(name);
    assert Run(t) == Set(r, id, n) by { Snoc(p, JoinCall(id, name)); }
    SetRegistry(r, id, n);
    JoinGet(p, id, name);
    JoinOrder(p, id, name);
  }

  /** After a join the registry reads as the lengthened trace says. */
  lemma JoinGet(p: seq<Call>, id: ConnId, name: Option<string>)
    requires Consistent(p, Run(p))
    ensures Tracks(p + [JoinCall(id, name)], Set(Run(p), id, OrAnonymous(name)))
  {
    var t, r, n := p + [JoinCall(id, name)], Run(p), OrAnonymous(name);
    forall x ensures Get(Set(r, id, n), x) == if Live(t, x) then Some(LastName(t, x)) else None {
      JoinStep(p, id, name, x);
      GetSet(r, id, n, x);
      assert Get(r, x) == if Live(p, x) then Some(LastName(p, x)) else None;
    }
  }

  /** After a join the entries are still in session order. */
  lemma JoinOrder(p: seq<Call>, id: ConnId, name: Option<string>)
    requires Consistent(p, Run(p))
    ensures InSessionOrder(p + [JoinCall(id, name)], Set(Run(p), id, OrAnonymous(name)))
  {
    var t, r, n := p + [JoinCall(id, name)], Run(p), OrAnonymous(name);
    var u := Set(r, id, n);
    if id in Keys(r) {
      var k :| 0 <= k < |r| && r[k].0 == id;
      SetPresent(r, k, n);
      assert Live(p, id) by { assert Get(r, id).Some?; }
      forall i | 0 <= i < |u| ensures SessionStart(t, u[i].0) == SessionStart(p, r[i].0) {
        assert u[i].0 == r[i].0;
        JoinStep(p, id, name, u[i].0);
      }
    } else {
      SetAbsent(r, id, n);
      assert !Live(p, id) by { assert Get(r, id).None?; }
      forall i | 0 <= i < |u|
        ensures SessionStart(t, u[i].0) == if i < |r| then SessionStart(p, r[i].0) else |p|
      {
        JoinStep(p, id, name, u[i].0);
        if i < |r| {
          assert u[i] == r[i];
          assert Keys(r)[i] == r[i].0;
        }
      }
    }
  }

  /** A disconnect ends the session of `id` and leaves every other connection as it was. */
  lemma DisconnectStep(p: seq<Call>, id: ConnId, x: ConnId)
    ensures Live(p + [DisconnectCall(id)], x) == (x != id && Live(p, x))
    ensures LastName(p + [DisconnectCall(id)], x) == LastName(p, x)
    ensures SessionStart(p + [DisconnectCall(id)], x) == SessionStart(p, x)
  {
    Snoc(p, DisconnectCall(id));
  }

  /** A disconnect keeps the registry consistent with the lengthened trace. */
  lemma DisconnectConsistent(p: seq<Call>, id: ConnId)
    requires Consistent(p, Run(p))
    ensures Consistent(p + [DisconnectCall(id)], Run(p + [DisconnectCall(id)]))
  {
    var t, r := p + [DisconnectCall(id)], Run(p);
    var u := Delete(r, id);
    assert Run(t) == u by { Snoc(p, DisconnectCall(id)); }
    DeleteRegistry(r, id);
    DisconnectGet(p, id);
    DisconnectOrder(p, id);
  }

  /** After a disconnect the registry reads as the lengthened trace says. */
  lemma DisconnectGet(p: seq<Call>, id: ConnId)
    requires Consistent(p, Run(p))
    ensures Tracks(p + [DisconnectCall(id)], Delete(Run(p), id))
  {
    var t, r := p + [DisconnectCall(id)], Run(p);
    forall x ensures Get(Delete(r, id), x) == if Live(t, x) then Some(LastName(t, x)) else None {
      DisconnectStep(p, id, x);
      GetDelete(r, id, x);
      assert Get(r, x) == if Live(p, x) then Some(LastName(p, x)) else None;
    }
  }

  /** After a disconnect the remaining entries are still in session order. */
  lemma DisconnectOrder(p: seq<Call>, id: ConnId)
    requires Consistent(p, Run(p))
    ensures InSessionOrder(p + [DisconnectCall(id)], Delete(Run(p), id))
  {
    var t, r := p + [DisconnectCall(id)], Run(p);
    forall x ensures SessionStart(t, x) == SessionStart(p, x) {
      DisconnectStep(p, id, x);
    }
    if id in Keys(r) {
      var k :| 0 <= k < |r| && r[k].0 == id;
      DeletePresent(r, k);
      InSessionOrderRemove(p, r, k);
    } else {
      DeleteAbsent(r, id);
    }
  }

  /** Removing one entry keeps the others in session order. */
  lemma InSessionOrderRemove(t: seq<Call>, users: seq<(ConnId, string)>, k: nat)
    requires InSessionOrder(t, users) && k < |users|
    ensures InSessionOrder(t, users[..k] + users[k + 1..])
  {
    var u := users[..k] + users[k + 1..];
    assert forall i :: 0 <= i < |u| ==> u[i] == users[if i < k then i else i + 1];
  }

  /** The broadcast user list after `t`: the names of the live connections, one each. */
  lemma UserListAfter(t: seq<Call>, i: nat)
    requires i < |Values(Run(t))|
    ensures Live(t, Run(t)[i].0)
    ensures Values(Run(t))[i] == LastName(t, Run(t)[i].0)
    ensures |Values(Run(t))| == |Run(t)|
  {
    RunConsistent(t);
    GetEntry(Run(t), i);
  }

  /** Every live connection is listed, under the name of its latest join. */
  lemma LiveListed(t: seq<Call>, id: ConnId)
    requires Live(t, id)
    ensures (id, LastName(t, id)) in Run(t)
  {
    RunConsistent(t);
    assert Get(Run(t), id) == Some(LastName(t, id));
  }

  /**
    A `message` after `t` is credited to the latest name of a live
    connection, and to "Anonymous" for one that never joined or has left.
   */
  lemma SenderAfter(t: seq<Call>, id: ConnId)
    ensures OrAnonymous(Get(Run(t), id)) == if Live(t, id) then LastName(t, id) else Anonymous
  {
    RunConsistent(t);
    assert Get(Run(t), id) == if Live(t, id) then Some(LastName(t, id)) else None;
  }
}
