/** The two persisted lists: the recording history (newest first, capped) and the watchlist
    of handles (normalised, no duplicates). The JSON files behind them are not modelled. */
module Lists {
  import opened Text
  import opened Resolver

  // ---------------------------------------------------------------------------
  // History

  /** One history record; `time` is the ISO timestamp of the moment it was added. */
  datatype Entry = Entry(username: string, title: string, duration: string, path: string,
                         size: string, time: string)

  /** The history keeps at most this many records. */
  const HistoryLimit := 100

  /** The history after `e` is put in front of `data` and the list is cut to the limit:
    `e` first, then the newest records of `data` in their order, the oldest ones dropped. */
  function Pushed(data: seq<Entry>, e: Entry): (r: seq<Entry>)
    ensures |r| == if |data| < HistoryLimit then |data| + 1 else HistoryLimit
    ensures r == [e] + data[..|r| - 1]
  {
    var d := [e] + data;
    if |d| > HistoryLimit then d[..HistoryLimit] else d
  }

  /** Two additions leave the later one first and the earlier one second. */
  lemma NewestFirst(data: seq<Entry>, a: Entry, b: Entry)
    ensures Pushed(Pushed(data, a), b)[..2] == [b, a]
  {
    var p := Pushed(data, a);
    assert Pushed(p, b)[1] == p[0];
  }

  /** A full history loses exactly its oldest record. */
  lemma FullDropsOldest(data: seq<Entry>, e: Entry)
    requires |data| == HistoryLimit
    ensures Pushed(data, e) == [e] + data[..HistoryLimit - 1]
  {
    assert Pushed(data, e)[1..] == data[..HistoryLimit - 1];
  }

  class History {
    var data: seq<Entry>

    constructor()
      ensures data == []
    {
      data := [];
    }

    /** `History.add`: inserts the record at the front, then keeps the first 100. */
    method Add(username: string, title: string, duration: string, path: string, size: string, time: string)
      modifies this
      ensures data == Pushed(old(data), Entry(username, title, duration, path, size, time))
      ensures |data| <= HistoryLimit && data[0].username == username
    {
      data := [Entry(username, title, duration, path, size, time)] + data;
      if |data| > HistoryLimit {
        data := data[..HistoryLimit];
      }
    }
  }

  // ---------------------------------------------------------------------------
  // Watchlist

  /** `s.index(x)`: the position of the first `x`. */
  function IndexOf(s: seq<string>, x: string): (i: nat)
    requires x in s
    ensures i < |s| && s[i] == x
    ensures forall j :: 0 <= j < i ==> s[j] != x
  {
    if s[0] == x then 0 else 1 + IndexOf(s[1..], x)
  }

  /** `s.remove(x)`: the list without its first `x`. */
  function RemoveFirst(s: seq<string>, x: string): (r: seq<string>)
    requires x in s
    ensures |r| == |s| - 1
    ensures multiset(r) == multiset(s) - multiset{x}
  {
    var i := IndexOf(s, x);
    assert s == s[..i] + [x] + s[i + 1..];
    s[..i] + s[i + 1..]
  }

  /** Without duplicates, removing the first occurrence removes the handle altogether and
    keeps the list free of duplicates. */
  lemma RemoveDistinct(s: seq<string>, x: string)
    requires Distinct(s) && x in s
    ensures x !in RemoveFirst(s, x) && Distinct(RemoveFirst(s, x))
  {
    RemoveFirstAt(s, x);
  }

  /** Removing the first `x` shifts the elements behind it one place to the front. */
  lemma RemoveFirstAt(s: seq<string>, x: string)
    requires x in s
    ensures var i := IndexOf(s, x); var r := RemoveFirst(s, x);
      && (forall k :: 0 <= k < i ==> r[k] == s[k])
      && (forall k :: i <= k < |r| ==> r[k] == s[k + 1])
  {
    var i := IndexOf(s, x);
    assert RemoveFirst(s, x) == s[..i] + s[i + 1..];
  }

  /** Adding a handle the list does not hold and then removing it gives the list back. */
  lemma AddThenRemove(s: seq<string>, x: string)
    requires x !in s
    ensures x in s + [x] && RemoveFirst(s + [x], x) == s
  {
    var t := s + [x];
    assert t[|s|] == x;
    assert forall j :: 0 <= j < |s| ==> t[j] == s[j];
    assert IndexOf(t, x) == |s|;
    assert t[..|s|] == s;
  }

  class Watchlist {
    var users: seq<string>

    /** The handles held are non-empty and listed once each. */
    ghost predicate Valid()
      reads this
    {
      Distinct(users) && "" !in users
    }

    constructor()
      ensures Valid() && users == []
    {
      users := [];
    }

    /** `Watchlist.add`: the normalised handle is appended unless it is empty or already held. */
    method Add(u: string) returns (ok: bool)
      requires Valid()
      modifies this
      ensures Valid()
      ensures ok <==> Normalise(u) != "" && Normalise(u) !in old(users)
      ensures users == if ok then old(users) + [Normalise(u)] else old(users)
    {
      var h := Normalise(u);
      if h != "" && h !in users {
        users := users + [h];
        ok := true;
      } else {
        ok := false;
      }
    }

    /** `Watchlist.remove`: the normalised handle is taken out if it is held. */
    method Remove(u: string) returns (ok: bool)
      requires Valid()
      modifies this
      ensures Valid()
      ensures ok <==> Normalise(u) in old(users)
      ensures ok ==> users == RemoveFirst(old(users), Normalise(u)) && Normalise(u) !in users
      ensures !ok ==> users == old(users)
    {
      var h := Normalise(u);
      if h in users {
        RemoveDistinct(users, h);
        users := RemoveFirst(users, h);
        ok := true;
      } else {
        ok := false;
      }
    }

    /** `Watchlist.get_all`: a copy of the handles in the order they were added. */
    method GetAll() returns (r: seq<string>)
      ensures r == users
    {
      r := users;
    }
  }
}
