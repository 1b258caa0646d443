/** The three list transformations the page applies to its `users` state:
    the spread-append after a create, the `map` merge after an update and
    the `filter` after a delete, with what each does to the records. */
module UserList {
  import opened Records

  /** Some record in `users` carries `id`. */
  predicate HasId(users: seq<User>, id: int) {
    exists i :: 0 <= i < |users| && users[i].id == id
  }

  /** No two records share an id (what the remote service guarantees). */
  predicate UniqueIds(users: seq<User>) {
    forall i, j :: 0 <= i < j < |users| ==> users[i].id != users[j].id
  }

  /** `{ ...user, ...data }`: the form's fields override, the id stays. */
  function Merge(user: User, data: UserFormInputs): User {
    User(user.id, data.name, data.email, data.phone)
  }

  /** `[...users, created]`. */
  function Append(users: seq<User>, created: User): (r: seq<User>)
    ensures |r| == |users| + 1
    ensures r[..|users|] == users
    ensures r[|users|] == created
  {
    users + [created]
  }

  /** Appending keeps ids unique exactly when the new id is not yet present. */
  lemma AppendKeepsUnique(users: seq<User>, created: User)
    ensures UniqueIds(Append(users, created)) <==> UniqueIds(users) && !HasId(users, created.id)
  {
  }

  /** `users.map(user => user.id === id ? { ...user, ...data } : user)`. */
  function UpdateById(users: seq<User>, id: int, data: UserFormInputs): seq<User> {
    if users == [] then []
    else [if users[0].id == id then Merge(users[0], data) else users[0]] + UpdateById(users[1..], id, data)
  }

  /** The update keeps length and positions: a record with the id gets the
      form's name, email and phone and keeps its id; any other record is
      untouched. */
  lemma {:induction false} UpdateByIdAt(users: seq<User>, id: int, data: UserFormInputs)
    ensures |UpdateById(users, id, data)| == |users|
    ensures forall i :: 0 <= i < |users| && users[i].id == id ==>
              UpdateById(users, id, data)[i] == User(users[i].id, data.name, data.email, data.phone)
    ensures forall i :: 0 <= i < |users| && users[i].id != id ==>
              UpdateById(users, id, data)[i] == users[i]
  {
    if users != [] {
      UpdateByIdAt(users[1..], id, data);
      var r := UpdateById(users, id, data);
      forall i | 1 <= i < |users| ensures r[i] == UpdateById(users[1..], id, data)[i - 1] && users[i] == users[1..][i - 1] {
      }
    }
  }

  /** The update changes no id, so it keeps the set of ids present and their uniqueness. */
  lemma UpdateByIdKeepsIds(users: seq<User>, id: int, data: UserFormInputs)
    ensures forall x :: HasId(UpdateById(users, id, data), x) <==> HasId(users, x)
    ensures UniqueIds(UpdateById(users, id, data)) <==> UniqueIds(users)
  {
    UpdateByIdAt(users, id, data);
    var r := UpdateById(users, id, data);
    assert forall i :: 0 <= i < |users| ==> r[i].id == users[i].id;
  }

  /** An update for an id no record carries leaves the list as it was. */
  lemma {:induction false} UpdateByIdAbsent(users: seq<User>, id: int, data: UserFormInputs)
    requires !HasId(users, id)
    ensures UpdateById(users, id, data) == users
  {
    UpdateByIdAt(users, id, data);
  }

  /** Submitting the same update twice leaves the list as one submit does. */
  lemma {:induction false} UpdateByIdIdempotent(users: seq<User>, id: int, data: UserFormInputs)
    ensures UpdateById(UpdateById(users, id, data), id, data) == UpdateById(users, id, data)
  {
    var once := UpdateById(users, id, data);
    UpdateByIdAt(users, id, data);
    UpdateByIdAt(once, id, data);
  }

  /** `users.filter(user => user.id !== id)`. */
  function RemoveById(users: seq<User>, id: int): seq<User> {
    if users == [] then []
    else if users[0].id == id then RemoveById(users[1..], id)
    else [users[0]] + RemoveById(users[1..], id)
  }

  /** The filter keeps exactly the records whose id differs, so none with the id remains. */
  lemma {:induction false} RemoveByIdMembers(users: seq<User>, id: int)
    ensures forall u :: u in RemoveById(users, id) <==> u in users && u.id != id
    ensures !HasId(RemoveById(users, id), id)
    ensures |RemoveById(users, id)| <= |users|
  {
    if users != [] {
      RemoveByIdMembers(users[1..], id);
      assert users == [users[0]] + users[1..];
    }
    var r := RemoveById(users, id);
    if HasId(r, id) {
      var i :| 0 <= i < |r| && r[i].id == id;
      assert r[i] in r;
    }
  }

  /** The filter works piecewise, so the records it keeps stay in their relative order. */
  lemma {:induction false} RemoveByIdConcat(a: seq<User>, b: seq<User>, id: int)
    ensures RemoveById(a + b, id) == RemoveById(a, id) + RemoveById(b, id)
  {
    if a == [] {
      assert a + b == b;
    } else {
      assert (a + b)[0] == a[0] && (a + b)[1..] == a[1..] + b;
      RemoveByIdConcat(a[1..], b, id);
    }
  }

  /** A delete of an id no record carries leaves the list as it was. */
  lemma {:induction false} RemoveByIdAbsent(users: seq<User>, id: int)
    requires !HasId(users, id)
    ensures RemoveById(users, id) == users
  {
    if users != [] {
      assert !HasId(users[1..], id) by {
        forall i | 0 <= i < |users| - 1 ensures users[1..][i].id != id {
          assert users[1..][i] == users[i + 1];
        }
      }
      RemoveByIdAbsent(users[1..], id);
      assert users == [users[0]] + users[1..];
    }
  }

  /** With unique ids, deleting the id of the record at `k` removes exactly
      that record and keeps every other one in place, so the count drops by one. */
  lemma RemoveByIdUnique(users: seq<User>, id: int, k: nat)
    requires UniqueIds(users)
    requires k < |users| && users[k].id == id
    ensures RemoveById(users, id) == users[..k] + users[k + 1..]
    ensures |RemoveById(users, id)| == |users| - 1
  {
    var before, after := users[..k], users[k + 1..];
    assert users == before + ([users[k]] + after);
    RemoveByIdConcat(before, [users[k]] + after, id);
    RemoveByIdConcat([users[k]], after, id);
    assert RemoveById([users[k]], id) == [] by {
      assert [users[k]][1..] == [];
    }
    assert !HasId(before, id) by {
      forall i | 0 <= i < |before| ensures before[i].id != id {
        assert before[i] == users[i];
      }
    }
    assert !HasId(after, id) by {
      forall i | 0 <= i < |after| ensures after[i].id != id {
        assert after[i] == users[k + 1 + i];
      }
    }
    RemoveByIdAbsent(before, id);
    RemoveByIdAbsent(after, id);
  }

  /** The filter keeps ids unique. */
  lemma {:induction false} RemoveByIdKeepsUnique(users: seq<User>, id: int)
    requires UniqueIds(users)
    ensures UniqueIds(RemoveById(users, id))
  {
    if users != [] {
      var tail := users[1..];
      assert UniqueIds(tail) by {
        forall i, j | 0 <= i < j < |tail| ensures tail[i].id != tail[j].id {
          assert tail[i] == users[i + 1] && tail[j] == users[j + 1];
        }
      }
      RemoveByIdKeepsUnique(tail, id);
      RemoveByIdMembers(tail, id);
      if users[0].id != id {
        var rest := RemoveById(tail, id);
        var r := [users[0]] + rest;
        forall i, j | 0 <= i < j < |r| ensures r[i].id != r[j].id {
          if i == 0 {
            assert r[j] == rest[j - 1] && rest[j - 1] in rest;
            var m :| 0 <= m < |tail| && tail[m] == r[j];
            assert users[m + 1] == r[j];
          } else {
            assert r[i] == rest[i - 1] && r[j] == rest[j - 1];
          }
        }
      }
    }
  }
}
