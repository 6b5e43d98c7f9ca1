/** Values shared by every part of the model: optional values, results,
    document identifiers, and the array updates the stores perform
    (MongoDB's `$addToSet` and `$pull`, and the JavaScript
    `filter`/`push` toggles used for likes and upvotes). */
module Common {

  datatype Option<+T> = None | Some(value: T) {
    function GetOr(default: T): T {
      if Some? then value else default
    }
  }

  datatype Result<+T, +E> = Ok(value: T) | Err(error: E)

  /** Document identifiers (MongoDB ObjectIds). */
  type UserId = nat
  type RoomId = nat
  type DocId = nat

  /** A JavaScript string is truthy iff it is present and not empty. */
  predicate Truthy(s: Option<string>) {
    s.Some? && s.value != ""
  }

  /** A JavaScript number is truthy iff it is present and not zero. */
  predicate NumberTruthy(n: Option<int>) {
    n.Some? && n.value != 0
  }

  predicate NoDup<T(==, !new)>(s: seq<T>) {
    forall i, j :: 0 <= i < j < |s| ==> s[i] != s[j]
  }

  /** `$pull` and `filter(x => x !== v)`: every occurrence of `v` is removed,
      the other elements stay in order. */
  function RemoveAll<T(==, !new)>(s: seq<T>, v: T): (r: seq<T>)
    ensures forall x :: x in r <==> x in s && x != v
    ensures |r| <= |s|
    ensures v !in s ==> r == s
  {
    if s == [] then []
    else if s[0] == v then RemoveAll(s[1..], v)
    else [s[0]] + RemoveAll(s[1..], v)
  }

  /** `$addToSet`: `v` is appended unless it is already there. */
  function AddToSet<T(==, !new)>(s: seq<T>, v: T): (r: seq<T>)
    ensures forall x :: x in r <==> x in s || x == v
    ensures |r| <= |s| + 1
  {
    if v in s then s else s + [v]
  }

  /** The like/upvote toggle: a present member is filtered out (every
      occurrence), an absent one is pushed once. */
  function ToggleMembership<T(==, !new)>(s: seq<T>, v: T): (r: seq<T>)
    ensures v in r <==> v !in s
    ensures forall x :: x != v ==> (x in r <==> x in s)
  {
    if v in s then RemoveAll(s, v) else s + [v]
  }

  lemma {:induction false} RemoveAllKeepsNoDup<T(!new)>(s: seq<T>, v: T)
    requires NoDup(s)
    ensures NoDup(RemoveAll(s, v))
  {
    if s != [] {
      assert NoDup(s[1..]) by {
        forall i, j | 0 <= i < j < |s[1..]| ensures s[1..][i] != s[1..][j] {
          assert s[1..][i] == s[i + 1] && s[1..][j] == s[j + 1];
        }
      }
      RemoveAllKeepsNoDup(s[1..], v);
      if s[0] != v {
        var rest := RemoveAll(s[1..], v);
        assert s[0] !in rest by {
          assert s[0] !in s[1..];
        }
        forall i, j | 0 <= i < j < |[s[0]] + rest| ensures ([s[0]] + rest)[i] != ([s[0]] + rest)[j] {
          if i == 0 {
            assert ([s[0]] + rest)[j] == rest[j - 1];
          } else {
            assert ([s[0]] + rest)[i] == rest[i - 1] && ([s[0]] + rest)[j] == rest[j - 1];
          }
        }
      }
    }
  }

  /** Removing a member that occurs once shortens the array by exactly one. */
  lemma {:induction false} RemoveAllLength<T(!new)>(s: seq<T>, v: T)
    requires NoDup(s)
    ensures |RemoveAll(s, v)| == if v in s then |s| - 1 else |s|
  {
    if s != [] {
      assert NoDup(s[1..]) by {
        forall i, j | 0 <= i < j < |s[1..]| ensures s[1..][i] != s[1..][j] {
          assert s[1..][i] == s[i + 1] && s[1..][j] == s[j + 1];
        }
      }
      RemoveAllLength(s[1..], v);
      if s[0] == v {
        assert v !in s[1..];
      } else {
        assert (v in s) == (v in s[1..]);
      }
    }
  }

  lemma AddToSetKeepsNoDup<T(!new)>(s: seq<T>, v: T)
    requires NoDup(s)
    ensures NoDup(AddToSet(s, v))
    ensures |AddToSet(s, v)| == if v in s then |s| else |s| + 1
  {
    if v !in s {
      var r := s + [v];
      forall i, j | 0 <= i < j < |r| ensures r[i] != r[j] {
        if j == |s| {
          assert r[i] == s[i];
        } else {
          assert r[i] == s[i] && r[j] == s[j];
        }
      }
    }
  }

  /** Toggling an absent member twice gives back the original array. */
  lemma ToggleTwiceRestores<T(!new)>(s: seq<T>, v: T)
    requires v !in s
    ensures ToggleMembership(ToggleMembership(s, v), v) == s
  {
    RemoveAllAppended(s, v);
  }

  lemma {:induction false} RemoveAllAppended<T(!new)>(s: seq<T>, v: T)
    requires v !in s
    ensures RemoveAll(s + [v], v) == s
  {
    if s == [] {
      assert [] + [v] == [v];
      assert RemoveAll([v], v) == RemoveAll([v][1..], v);
      assert [v][1..] == [];
    } else {
      assert (s + [v])[0] == s[0];
      assert (s + [v])[1..] == s[1..] + [v];
      RemoveAllAppended(s[1..], v);
      assert [s[0]] + s[1..] == s;
    }
  }

  /** The like/upvote count after a toggle, for an array without repeats. */
  lemma ToggleLength<T(!new)>(s: seq<T>, v: T)
    requires NoDup(s)
    ensures NoDup(ToggleMembership(s, v))
    ensures |ToggleMembership(s, v)| == if v in s then |s| - 1 else |s| + 1
  {
    if v in s {
      RemoveAllKeepsNoDup(s, v);
      RemoveAllLength(s, v);
    } else {
      AddToSetKeepsNoDup(s, v);
    }
  }
}
