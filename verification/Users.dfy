/**
 The user list of one host, rrmngmnt/host.py: `add_user` removes in place, while walking over a
 copy, everybody with the new user's full name. `list.remove` removes the first occurrence of an
 object, so the same object may well occur several times.
 */
module Users {
  import opened Wrappers

  class User {
    const fullName: string

    constructor (fullName: string)
      ensures this.fullName == fullName
    {
      this.fullName := fullName;
    }
  }

  /** `list.remove`: the list without the first occurrence of the object. */
  function Remove(users: seq<User>, u: User): seq<User> {
    if users == [] then [] else if users[0] == u then users[1..] else [users[0]] + Remove(users[1..], u)
  }

  /** Everybody with another name, in order. */
  function Others(users: seq<User>, name: string): (r: seq<User>)
    ensures forall u :: u in r ==> u in users && u.fullName != name
    ensures forall u :: u in users && u.fullName != name ==> u in r
  {
    if users == [] then []
    else
      var rest := Others(users[1..], name);
      if users[0].fullName == name then rest else [users[0]] + rest
  }

  /** The first user of that name. */
  function FirstNamed(users: seq<User>, name: string): Option<User> {
    if users == [] then None
    else if users[0].fullName == name then Some(users[0])
    else FirstNamed(users[1..], name)
  }

  lemma {:induction false} OthersAppend(a: seq<User>, b: seq<User>, name: string)
    ensures Others(a + b, name) == Others(a, name) + Others(b, name)
    decreases |a|
  {
    if a == [] {
      assert a + b == b;
    } else {
      assert (a + b)[1..] == a[1..] + b;
      OthersAppend(a[1..], b, name);
    }
  }

  /** Removing skips a front that does not hold the object. */
  lemma {:induction false} RemoveBehind(front: seq<User>, u: User, back: seq<User>)
    requires u !in front
    ensures Remove(front + [u] + back, u) == front + back
    decreases |front|
  {
    var all := front + [u] + back;
    if front == [] {
      assert all[1..] == back;
    } else {
      assert all[1..] == front[1..] + [u] + back;
      RemoveBehind(front[1..], u, back);
    }
  }

  /** The list after looking at `i` members of the copy. */
  function Halfway(copy: seq<User>, i: nat, name: string): seq<User>
    requires i <= |copy|
  {
    Others(copy[..i], name) + copy[i..]
  }

  /** One turn of the loop in `add_user`: what is left of the copy is still all there. */
  lemma OneRemoval(copy: seq<User>, i: nat, name: string)
    requires i < |copy|
    ensures Halfway(copy, i + 1, name) ==
            if copy[i].fullName == name then Remove(Halfway(copy, i, name), copy[i]) else Halfway(copy, i, name)
  {
    var u, kept := copy[i], Others(copy[..i], name);
    assert copy[..i + 1] == copy[..i] + [u] && copy[i..] == [u] + copy[i + 1..];
    OthersAppend(copy[..i], [u], name);
    OthersOne(u, name);
    if u.fullName == name {
      RemoveBehind(kept, u, copy[i + 1..]);
      assert kept + [u] + copy[i + 1..] == kept + copy[i..] && kept + [] == kept;
    } else {
      assert (kept + [u]) + copy[i + 1..] == kept + ([u] + copy[i + 1..]);
    }
  }

  lemma OthersOne(u: User, name: string)
    ensures Others([u], name) == if u.fullName == name then [] else [u]
  {
    assert [u][1..] == [] && [u] + [] == [u];
  }

  lemma {:induction false} FirstNamedAppend(front: seq<User>, u: User)
    requires forall f :: f in front ==> f.fullName != u.fullName
    ensures FirstNamed(front + [u], u.fullName) == Some(u)
    decreases |front|
  {
    if front != [] {
      assert front[0] in front;
      assert (front + [u])[1..] == front[1..] + [u];
      FirstNamedAppend(front[1..], u);
    }
  }

  class Host {
    var users: seq<User>

    constructor ()
      ensures users == []
    {
      users := [];
    }

    /** `get_user`; None stands for the exception. */
    method GetUser(name: string) returns (r: Option<User>)
      ensures r == FirstNamed(users, name)
      ensures r == None <==> forall u :: u in users ==> u.fullName != name
      ensures r.Some? ==> exists i :: 0 <= i < |users| && users[i] == r.value && r.value.fullName == name
                                      && forall j :: 0 <= j < i ==> users[j].fullName != name
    {
      for i := 0 to |users|
        invariant FirstNamed(users, name) == FirstNamed(users[i..], name)
        invariant forall j :: 0 <= j < i ==> users[j].fullName != name
      {
        if users[i].fullName == name {
          return Some(users[i]);
        }
        assert users[i..][1..] == users[i + 1..];
      }
      return None;
    }

    /** The edited list is the old one filtered, with the user behind it; and it is that user that is found. */
    method AddUser(user: User)
      modifies this
      ensures users == Others(old(users), user.fullName) + [user]
      ensures FirstNamed(users, user.fullName) == Some(user)
    {
      var copy := users;
      for i := 0 to |copy|
        invariant users == Halfway(copy, i, user.fullName)
      {
        var u := copy[i];
        OneRemoval(copy, i, user.fullName);
        if user.fullName == u.fullName {
          users := Remove(users, u);
        }
      }
      assert copy[..|copy|] == copy;
      users := users + [user];
      FirstNamedAppend(Others(copy, user.fullName), user);
    }
  }

  // ---------------------------------------------------------------- whole sequences of additions

  function AddAll(users: seq<User>, added: seq<User>): seq<User>
    decreases |added|
  {
    if added == [] then users else AddAll(Others(users, added[0].fullName) + [added[0]], added[1..])
  }

  ghost predicate DistinctNames(users: seq<User>) {
    forall i, j :: 0 <= i < j < |users| ==> users[i].fullName != users[j].fullName
  }

  lemma {:induction false} OthersDistinct(users: seq<User>, name: string)
    requires DistinctNames(users)
    ensures DistinctNames(Others(users, name))
    decreases |users|
  {
    if users != [] {
      var rest := Others(users[1..], name);
      OthersDistinct(users[1..], name);
      forall u | u in rest ensures u.fullName != users[0].fullName {
        var i :| 0 <= i < |users| - 1 && users[1..][i] == u;
        assert users[i + 1] == u;
      }
      assert forall i :: 0 <= i < |rest| ==> rest[i] in rest;
    }
  }

  /** A list that starts with distinct names keeps distinct names, whoever is added how often. */
  lemma {:induction false} AddingKeepsNamesDistinct(users: seq<User>, added: seq<User>)
    requires DistinctNames(users)
    ensures DistinctNames(AddAll(users, added))
    decreases |added|
  {
    if added != [] {
      var others := Others(users, added[0].fullName);
      OthersDistinct(users, added[0].fullName);
      assert forall i :: 0 <= i < |others| ==> others[i] in others;
      AddingKeepsNamesDistinct(others + [added[0]], added[1..]);
    }
  }

  /** A user, once added, is found until somebody of the same name is added. */
  lemma {:induction false} UserIsFoundUntilReplaced(users: seq<User>, u: User, later: seq<User>)
    requires FirstNamed(users, u.fullName) == Some(u)
    requires forall v :: v in later ==> v.fullName != u.fullName
    ensures FirstNamed(AddAll(users, later), u.fullName) == Some(u)
    decreases |later|
  {
    if later != [] {
      var v := later[0];
      assert v in later;
      FirstNamedKept(users, v, u.fullName);
      UserIsFoundUntilReplaced(Others(users, v.fullName) + [v], u, later[1..]);
    }
  }

  lemma {:induction false} FirstNamedKept(users: seq<User>, v: User, name: string)
    requires v.fullName != name && FirstNamed(users, name).Some?
    ensures FirstNamed(Others(users, v.fullName) + [v], name) == FirstNamed(users, name)
    decreases |users|
  {
    if users[0].fullName != name {
      FirstNamedKept(users[1..], v, name);
      var rest := Others(users[1..], v.fullName);
      if users[0].fullName != v.fullName {
        assert ([users[0]] + rest + [v])[1..] == rest + [v];
      }
    }
  }
}
