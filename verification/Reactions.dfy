/** The reaction list of a message and the set of (emoji, user) pairs it stands for. */
module Reactions {

  datatype Reaction = Reaction(emoji: string, users: seq<string>, count: int)

  predicate Distinct(users: seq<string>) {
    forall i, j :: 0 <= i < j < |users| ==> users[i] != users[j]
  }

  predicate Sound(r: Reaction) {
    r.users != [] && Distinct(r.users) && r.count == |r.users|
  }

  ghost predicate Valid(list: seq<Reaction>) {
    && (forall i :: 0 <= i < |list| ==> Sound(list[i]))
    && (forall i, j :: 0 <= i < j < |list| ==> list[i].emoji != list[j].emoji)
  }

  ghost predicate Reacted(list: seq<Reaction>, emoji: string, user: string) {
    exists i :: 0 <= i < |list| && list[i].emoji == emoji && user in list[i].users
  }

  ghost predicate HasEntry(list: seq<Reaction>, emoji: string) {
    exists i :: 0 <= i < |list| && list[i].emoji == emoji
  }

  ghost function Pairs(list: seq<Reaction>): set<(string, string)> {
    set i, k | 0 <= i < |list| && 0 <= k < |list[i].users| :: (list[i].emoji, list[i].users[k])
  }

  lemma PairsMeaning(list: seq<Reaction>, emoji: string, user: string)
    ensures (emoji, user) in Pairs(list) <==> Reacted(list, emoji, user)
  {
    if i :| 0 <= i < |list| && list[i].emoji == emoji && user in list[i].users {
      var k :| 0 <= k < |list[i].users| && list[i].users[k] == user;
    }
  }

  // ---------- reaction:added ----------

  function Extended(r: Reaction, user: string): Reaction {
    if user in r.users then r else Reaction(r.emoji, r.users + [user], |r.users| + 1)
  }

  /** The first entry for the emoji gets the user, or a new entry is pushed. */
  function WithReaction(list: seq<Reaction>, emoji: string, user: string): seq<Reaction> {
    if list == [] then [Reaction(emoji, [user], 1)]
    else if list[0].emoji == emoji then [Extended(list[0], user)] + list[1..]
    else [list[0]] + WithReaction(list[1..], emoji, user)
  }

  lemma {:induction false} WithAt(list: seq<Reaction>, emoji: string, user: string, i: nat)
    requires i <= |list| && forall j :: 0 <= j < i ==> list[j].emoji != emoji
    requires i < |list| ==> list[i].emoji == emoji
    ensures WithReaction(list, emoji, user)
         == if i < |list| then list[i := Extended(list[i], user)] else list + [Reaction(emoji, [user], 1)]
    decreases i
  {
    if i > 0 {
      WithAt(list[1..], emoji, user, i - 1);
      assert list == [list[0]] + list[1..];
    } else if list != [] {
      assert list[0 := Extended(list[0], user)] == [Extended(list[0], user)] + list[1..];
    }
  }

  /** The handler's body: find the entry, extend it on its copy, or push a new one. */
  method AddReaction(list: seq<Reaction>, emoji: string, user: string) returns (reactions: seq<Reaction>)
    ensures reactions == WithReaction(list, emoji, user)
  {
    reactions := list;
    var i := 0;
    while i < |reactions| && reactions[i].emoji != emoji
      invariant 0 <= i <= |reactions|
      invariant forall j :: 0 <= j < i ==> list[j].emoji != emoji
    {
      i := i + 1;
    }
    WithAt(list, emoji, user, i);
    if i < |reactions| {
      var existing := reactions[i];
      if user !in existing.users {
        var users := existing.users + [user];
        reactions := reactions[i := Reaction(existing.emoji, users, |users|)];
      }
    } else {
      reactions := reactions + [Reaction(emoji, [user], 1)];
    }
  }

  /** Adding keeps the list valid and adds exactly one pair, or none when it was there. */
  lemma AddCorrect(list: seq<Reaction>, emoji: string, user: string)
    requires Valid(list)
    ensures Valid(WithReaction(list, emoji, user))
    ensures Pairs(WithReaction(list, emoji, user)) == Pairs(list) + {(emoji, user)}
  {
    var r := WithReaction(list, emoji, user);
    if HasEntry(list, emoji) {
      var i :| 0 <= i < |list| && list[i].emoji == emoji;
      WithAt(list, emoji, user, i);
      ExtendedReacts(list, user, i);
    } else {
      assert forall j :: 0 <= j < |list| ==> list[j].emoji != emoji;
      WithAt(list, emoji, user, |list|);
      PushedReacts(list, emoji, user);
    }
    forall e, u ensures (e, u) in Pairs(r) <==> (e, u) in Pairs(list) + {(emoji, user)} {
      PairsMeaning(r, e, u);
      PairsMeaning(list, e, u);
    }
  }

  lemma ExtendedReacts(list: seq<Reaction>, user: string, i: nat)
    requires Valid(list) && i < |list|
    ensures var r := list[i := Extended(list[i], user)];
            Valid(r) && forall e, u :: Reacted(r, e, u) <==> Reacted(list, e, u) || (e == list[i].emoji && u == user)
  {
    var r := list[i := Extended(list[i], user)];
    SameReactedElsewhere(list, r, i);
    SameReactedElsewhere(list, list, i);
  }

  lemma PushedReacts(list: seq<Reaction>, emoji: string, user: string)
    ensures forall e, u :: Reacted(list + [Reaction(emoji, [user], 1)], e, u) <==>
                             Reacted(list, e, u) || (e == emoji && u == user)
  {
    var r := list + [Reaction(emoji, [user], 1)];
    assert forall j :: 0 <= j < |list| ==> r[j] == list[j];
    assert r[|list|] == Reaction(emoji, [user], 1);
  }

  /** Replacing one entry by another of the same emoji changes that emoji's pairs only. */
  lemma SameReactedElsewhere(a: seq<Reaction>, b: seq<Reaction>, i: nat)
    requires Valid(a) && i < |a| && |b| == |a| && b == a[i := b[i]] && b[i].emoji == a[i].emoji
    ensures forall e, u :: Reacted(b, e, u) <==>
              if e == a[i].emoji then u in b[i].users else Reacted(a, e, u)
  {
    forall e, u ensures Reacted(b, e, u) <==> if e == a[i].emoji then u in b[i].users else Reacted(a, e, u) {
      if j :| 0 <= j < |b| && b[j].emoji == e && u in b[j].users {
        assert j != i ==> a[j] == b[j];
      }
      if e != a[i].emoji {
        if j :| 0 <= j < |a| && a[j].emoji == e && u in a[j].users {
          assert b[j] == a[j];
        }
      } else if u in b[i].users {
        assert b[i].emoji == e;
      }
    }
  }

  // ---------- reaction:removed ----------

  function Without(users: seq<string>, user: string): seq<string> {
    if users == [] then []
    else (if users[0] == user then [] else [users[0]]) + Without(users[1..], user)
  }

  function DecrementReactionForUser(r: Reaction, emoji: string, user: string): Reaction {
    if r.emoji != emoji then r
    else Reaction(r.emoji, Without(r.users, user), if r.count - 1 > 0 then r.count - 1 else 0)
  }

  /** Map the decrement over the list, then keep the entries with a positive count. */
  function RemoveReaction(list: seq<Reaction>, emoji: string, user: string): seq<Reaction> {
    if list == [] then []
    else
      var r := DecrementReactionForUser(list[0], emoji, user);
      (if r.count > 0 then [r] else []) + RemoveReaction(list[1..], emoji, user)
  }

  lemma {:induction false} WithoutUser(users: seq<string>, user: string)
    requires Distinct(users)
    ensures Distinct(Without(users, user))
    ensures forall u :: u in Without(users, user) <==> u in users && u != user
    ensures |Without(users, user)| == if user in users then |users| - 1 else |users|
  {
    if users != [] {
      WithoutUser(users[1..], user);
      assert users[0] !in users[1..] && users[0] !in Without(users[1..], user);
      assert forall u :: u in users <==> u == users[0] || u in users[1..];
    }
  }

  /** No entry for the emoji: the list is returned as it was. */
  lemma {:induction false} RemoveAbsentEmoji(list: seq<Reaction>, emoji: string, user: string)
    requires !HasEntry(list, emoji) && forall i :: 0 <= i < |list| ==> list[i].count > 0
    ensures RemoveReaction(list, emoji, user) == list
  {
    if list != [] {
      assert list[0].emoji != emoji;
      forall i | 0 <= i < |list[1..]| ensures list[1..][i].emoji != emoji {
        assert list[1..][i] == list[i + 1];
      }
      RemoveAbsentEmoji(list[1..], emoji, user);
      assert list == [list[0]] + list[1..];
    }
  }

  lemma {:induction false} RemoveConcat(x: seq<Reaction>, y: seq<Reaction>, emoji: string, user: string)
    ensures RemoveReaction(x + y, emoji, user) == RemoveReaction(x, emoji, user) + RemoveReaction(y, emoji, user)
    decreases |x|
  {
    if x == [] {
      assert x + y == y;
    } else {
      assert (x + y)[1..] == x[1..] + y;
      RemoveConcat(x[1..], y, emoji, user);
    }
  }

  lemma NoOtherEntry(list: seq<Reaction>, i: nat)
    requires Valid(list) && i < |list|
    ensures var x, y := list[..i], list[i + 1..];
            && !HasEntry(x, list[i].emoji) && !HasEntry(y, list[i].emoji)
            && (forall j :: 0 <= j < |x| ==> x[j].count > 0) && (forall j :: 0 <= j < |y| ==> y[j].count > 0)
  {
    var y := list[i + 1..];
    forall j | 0 <= j < i ensures list[j].emoji != list[i].emoji && list[j].count > 0 {
      assert Sound(list[j]);
    }
    forall j | 0 <= j < |y| ensures y[j].emoji != list[i].emoji && y[j].count > 0 {
      assert y[j] == list[i + 1 + j] && Sound(list[i + 1 + j]);
    }
  }

  lemma RemoveOne(entry: Reaction, user: string)
    ensures RemoveReaction([entry], entry.emoji, user)
         == if entry.count > 1 then [DecrementReactionForUser(entry, entry.emoji, user)] else []
  {
    assert [entry][1..] == [] && RemoveReaction([], entry.emoji, user) == [];
  }

  /** With an entry at position i only that entry changes, or goes. */
  lemma RemoveAt(list: seq<Reaction>, emoji: string, user: string, i: nat)
    requires Valid(list) && i < |list| && list[i].emoji == emoji
    ensures RemoveReaction(list, emoji, user)
         == list[..i] + (if list[i].count > 1 then [DecrementReactionForUser(list[i], emoji, user)] else []) + list[i + 1..]
  {
    var x, y := list[..i], list[i + 1..];
    NoOtherEntry(list, i);
    RemoveAbsentEmoji(x, emoji, user);
    RemoveAbsentEmoji(y, emoji, user);
    RemoveOne(list[i], user);
    RemoveThree(list, i, emoji, user);
  }

  lemma RemoveThree(list: seq<Reaction>, i: nat, emoji: string, user: string)
    requires i < |list|
    ensures RemoveReaction(list, emoji, user)
         == RemoveReaction(list[..i], emoji, user) + RemoveReaction([list[i]], emoji, user)
            + RemoveReaction(list[i + 1..], emoji, user)
  {
    assert list == list[..i] + [list[i]] + list[i + 1..];
    RemoveConcat(list[..i] + [list[i]], list[i + 1..], emoji, user);
    RemoveConcat(list[..i], [list[i]], emoji, user);
  }

  /** The removal does its work, on a valid list, exactly when it names a present pair or an emoji
      without an entry: for an entry the user is not in, the count drops and the user list does not. */
  lemma RemoveCorrectExactly(list: seq<Reaction>, emoji: string, user: string)
    requires Valid(list)
    ensures var r := RemoveReaction(list, emoji, user);
            Valid(r) && Pairs(r) == Pairs(list) - {(emoji, user)}
            <==> (emoji, user) in Pairs(list) || !HasEntry(list, emoji)
  {
    PairsMeaning(list, emoji, user);
    if !HasEntry(list, emoji) {
      RemoveAbsentEmoji(list, emoji, user);
      assert (emoji, user) !in Pairs(list);
    } else {
      var i :| 0 <= i < |list| && list[i].emoji == emoji;
      RemoveAt(list, emoji, user, i);
      WithoutUser(list[i].users, user);
      if user in list[i].users {
        assert Reacted(list, emoji, user);
        RemovePresent(list, emoji, user, i);
      } else {
        RemoveAbsentUser(list, emoji, user, i);
      }
    }
  }

  /** The entry keeps other users: it loses this one and counts one less. */
  lemma RemoveShrinks(list: seq<Reaction>, emoji: string, user: string, i: nat)
    requires Valid(list) && i < |list| && list[i].emoji == emoji && user in list[i].users && list[i].count > 1
    ensures var r := RemoveReaction(list, emoji, user);
            Valid(r) && forall e, u :: Reacted(r, e, u) <==> Reacted(list, e, u) && (e, u) != (emoji, user)
  {
    var r, d := RemoveReaction(list, emoji, user), DecrementReactionForUser(list[i], emoji, user);
    RemoveAt(list, emoji, user, i);
    WithoutUser(list[i].users, user);
    assert r == list[i := d];
    assert Sound(d);
    SameReactedElsewhere(list, r, i);
    SameReactedElsewhere(list, list, i);
  }

  /** The entry had this user only: it goes. */
  lemma RemoveDrops(list: seq<Reaction>, emoji: string, user: string, i: nat)
    requires Valid(list) && i < |list| && list[i].emoji == emoji && user in list[i].users && list[i].count == 1
    ensures var r := RemoveReaction(list, emoji, user);
            Valid(r) && forall e, u :: Reacted(r, e, u) <==> Reacted(list, e, u) && (e, u) != (emoji, user)
  {
    var r := RemoveReaction(list, emoji, user);
    RemoveAt(list, emoji, user, i);
    assert list[i].users == [user];
    assert r == list[..i] + list[i + 1..];
    SameReactedElsewhere(list, list, i);
    forall e, u ensures Reacted(r, e, u) <==> Reacted(list, e, u) && (e, u) != (emoji, user) {
      ReactedWithout(list, r, i, e, u);
    }
  }

  lemma RemovePresent(list: seq<Reaction>, emoji: string, user: string, i: nat)
    requires Valid(list) && i < |list| && list[i].emoji == emoji && user in list[i].users
    ensures var r := RemoveReaction(list, emoji, user);
            Valid(r) && Pairs(r) == Pairs(list) - {(emoji, user)}
  {
    var r := RemoveReaction(list, emoji, user);
    if list[i].count > 1 { RemoveShrinks(list, emoji, user, i); } else { RemoveDrops(list, emoji, user, i); }
    forall e, u ensures (e, u) in Pairs(r) <==> (e, u) in Pairs(list) - {(emoji, user)} {
      PairsMeaning(r, e, u);
      PairsMeaning(list, e, u);
    }
  }

  lemma ReactedWithout(list: seq<Reaction>, r: seq<Reaction>, i: nat, e: string, u: string)
    requires Valid(list) && i < |list| && r == list[..i] + list[i + 1..]
    ensures Reacted(r, e, u) <==> Reacted(list, e, u) && e != list[i].emoji
  {
    if k :| 0 <= k < |list| && list[k].emoji == e && u in list[k].users {
      if k < i { assert r[k] == list[k]; } else if k > i { assert r[k - 1] == list[k]; }
    }
    if k :| 0 <= k < |r| && r[k].emoji == e && u in r[k].users {
      assert r[k] == if k < i then list[k] else list[k + 1];
    }
  }

  lemma RemoveAbsentUser(list: seq<Reaction>, emoji: string, user: string, i: nat)
    requires Valid(list) && i < |list| && list[i].emoji == emoji && user !in list[i].users
    ensures (emoji, user) !in Pairs(list)
    ensures var r := RemoveReaction(list, emoji, user);
            !(Valid(r) && Pairs(r) == Pairs(list) - {(emoji, user)})
  {
    PairsMeaning(list, emoji, user);
    var r := RemoveReaction(list, emoji, user);
    RemoveAt(list, emoji, user, i);
    WithoutUser(list[i].users, user);
    assert forall j :: 0 <= j < |list| && j != i ==> list[j].emoji != emoji;
    if list[i].count > 1 {
      assert r[i].count != |r[i].users|;
      assert !Sound(r[i]);
    } else {
      OthersLost(list, r, i, list[i].users[0]);
    }
  }

  /** The entry went with a user that was not meant. */
  lemma OthersLost(list: seq<Reaction>, r: seq<Reaction>, i: nat, u: string)
    requires Valid(list) && i < |list| && r == list[..i] + list[i + 1..] && u in list[i].users
    ensures (list[i].emoji, u) in Pairs(list) && (list[i].emoji, u) !in Pairs(r)
  {
    PairsMeaning(list, list[i].emoji, u);
    PairsMeaning(r, list[i].emoji, u);
    ReactedWithout(list, r, i, list[i].emoji, u);
  }

  // ---------- Order ----------

  /** An added user goes to the end of the emoji's entry, a new emoji to the end of the list, and nothing
      else moves. */
  lemma AddInPlace(list: seq<Reaction>, emoji: string, user: string, i: nat)
    requires i <= |list| && (i < |list| ==> list[i].emoji == emoji) && forall j :: 0 <= j < i ==> list[j].emoji != emoji
    ensures var r := WithReaction(list, emoji, user);
            if i == |list| then r == list + [Reaction(emoji, [user], 1)]
            else if user in list[i].users then r == list
            else r == list[..i] + [Reaction(emoji, list[i].users + [user], |list[i].users| + 1)] + list[i + 1..]
  {
    WithAt(list, emoji, user, i);
  }

  lemma {:induction false} WithoutOne(x: seq<string>, user: string, y: seq<string>)
    requires user !in x && user !in y
    ensures Without(x + [user] + y, user) == x + y
    decreases |x|
  {
    if x == [] {
      assert x + [user] + y == [user] + y && ([user] + y)[1..] == y && x + y == y;
      WithoutNone(y, user);
    } else {
      assert (x + [user] + y)[1..] == x[1..] + [user] + y;
      WithoutOne(x[1..], user, y);
      assert x + y == [x[0]] + (x[1..] + y);
    }
  }

  lemma {:induction false} WithoutNone(users: seq<string>, user: string)
    requires user !in users
    ensures Without(users, user) == users
  {
    if users != [] {
      WithoutNone(users[1..], user);
      assert users == [users[0]] + users[1..];
    }
  }

  lemma DistinctAround(x: seq<string>, user: string, y: seq<string>)
    requires Distinct(x + [user] + y)
    ensures user !in x && user !in y
  {
    var all := x + [user] + y;
    assert all[|x|] == user;
    assert forall k :: 0 <= k < |x| ==> all[k] == x[k];
    assert forall k :: 0 <= k < |y| ==> all[|x| + 1 + k] == y[k];
  }

  /** A removed user leaves the others, and the entries, in their order; the entry goes with its last
      user. */
  lemma RemoveInPlace(list: seq<Reaction>, emoji: string, user: string, i: nat, x: seq<string>, y: seq<string>)
    requires Valid(list) && i < |list| && list[i].emoji == emoji && list[i].users == x + [user] + y
    ensures RemoveReaction(list, emoji, user)
         == list[..i] + (if x + y == [] then [] else [Reaction(emoji, x + y, |x + y|)]) + list[i + 1..]
  {
    assert Sound(list[i]);
    DistinctAround(x, user, y);
    RemoveAt(list, emoji, user, i);
    WithoutOne(x, user, y);
  }

  // ---------- Runs ----------

  datatype Event = Added(emoji: string, user: string) | Removed(emoji: string, user: string)

  /** What the list should stand for. */
  function Ideal(pairs: set<(string, string)>, e: Event): set<(string, string)> {
    if e.Added? then pairs + {(e.emoji, e.user)} else pairs - {(e.emoji, e.user)}
  }

  function IdealRun(pairs: set<(string, string)>, events: seq<Event>): set<(string, string)>
    decreases |events|
  {
    if events == [] then pairs else IdealRun(Ideal(pairs, events[0]), events[1..])
  }

  /** Each removal names a pair that is there at that time. */
  predicate RemovesPresent(pairs: set<(string, string)>, events: seq<Event>)
    decreases |events|
  {
    events == [] || (
      && (events[0].Removed? ==> (events[0].emoji, events[0].user) in pairs)
      && RemovesPresent(Ideal(pairs, events[0]), events[1..]))
  }

  function Run(list: seq<Reaction>, events: seq<Event>): seq<Reaction>
    decreases |events|
  {
    if events == [] then list
    else
      var e := events[0];
      Run(if e.Added? then WithReaction(list, e.emoji, e.user) else RemoveReaction(list, e.emoji, e.user), events[1..])
  }

  /** Over every run of added events, repeated ones included, and removals of present pairs, the list
      stays valid and stands for exactly the pairs added and not removed since. */
  lemma {:induction false} RunRefinesSet(list: seq<Reaction>, events: seq<Event>)
    requires Valid(list) && RemovesPresent(Pairs(list), events)
    ensures Valid(Run(list, events)) && Pairs(Run(list, events)) == IdealRun(Pairs(list), events)
    decreases |events|
  {
    if events != [] {
      var e := events[0];
      if e.Added? {
        AddCorrect(list, e.emoji, e.user);
        RunRefinesSet(WithReaction(list, e.emoji, e.user), events[1..]);
      } else {
        RemoveCorrectExactly(list, e.emoji, e.user);
        RunRefinesSet(RemoveReaction(list, e.emoji, e.user), events[1..]);
      }
    }
  }
}
