/**
 * The channel registry: the `channels` table (`id` AUTOINCREMENT, `username`
 * UNIQUE) holding the gates a user must have joined, and the normalisation
 * every handle goes through before it is stored or compared.
 */
module Channels {
  import opened Strings

  datatype Channel = Channel(id: nat, handle: string)

  /**
   * What `add_channel` and `remove_channel` do to the operator's text: strip
   * whitespace, then put `@` in front unless it is already there.
   */
  function NormalizeHandle(name: string): (h: string)
    ensures IsCanonical(h)
    ensures h == Strip(name) || h == "@" + Strip(name)
    ensures Strip(name) != [] && Strip(name)[0] == '@' ==> h == Strip(name)
  {
    var u := Strip(name);
    if |u| > 0 && u[0] == '@' then u else "@" + u
  }

  /** A handle in the form the table stores: `@` first, no surrounding whitespace. */
  predicate IsCanonical(h: string) {
    |h| >= 1 && h[0] == '@' && IsStripped(h)
  }

  /** The canonical handles are exactly the fixed points of normalisation. */
  lemma CanonicalIffFixed(h: string)
    ensures IsCanonical(h) <==> NormalizeHandle(h) == h
  {
    if IsCanonical(h) {
      StripFixesStripped(h);
    }
  }

  /** Normalising an already normalised handle changes nothing. */
  lemma NormalizeIdempotent(name: string)
    ensures NormalizeHandle(NormalizeHandle(name)) == NormalizeHandle(name)
  {
    CanonicalIffFixed(NormalizeHandle(name));
  }

  /** The handles of the registry, in table order: `[r[0] for r in rows]`. */
  function Handles(cs: seq<Channel>): (hs: seq<string>)
    ensures |hs| == |cs|
    ensures forall i :: 0 <= i < |cs| ==> hs[i] == cs[i].handle
  {
    seq(|cs|, i requires 0 <= i < |cs| => cs[i].handle)
  }

  /**
   * The table's own guarantees: ids strictly increase along the sequence and
   * stay below the next AUTOINCREMENT value, handles are unique and
   * canonical.
   */
  ghost predicate RegistryValid(cs: seq<Channel>, nextId: nat) {
    && nextId >= 1
    && IdsAscending(cs)
    && HandlesUnique(cs)
    && (forall c :: c in cs ==> 1 <= c.id < nextId && IsCanonical(c.handle))
  }

  ghost predicate IdsAscending(cs: seq<Channel>) {
    forall i, j :: 0 <= i < j < |cs| ==> cs[i].id < cs[j].id
  }

  ghost predicate HandlesUnique(cs: seq<Channel>) {
    forall i, j :: 0 <= i < j < |cs| ==> cs[i].handle != cs[j].handle
  }

  /** `DELETE FROM channels WHERE username = h`: every other row keeps its place. */
  function RemoveHandle(cs: seq<Channel>, h: string): (r: seq<Channel>)
    ensures |r| <= |cs|
    decreases |cs|
  {
    if cs == [] then []
    else if cs[0].handle == h then RemoveHandle(cs[1..], h)
    else [cs[0]] + RemoveHandle(cs[1..], h)
  }

  /** The rows that survive the DELETE are exactly those with another handle. */
  lemma {:induction false} RemoveHandleMembers(cs: seq<Channel>, h: string)
    ensures forall c :: c in RemoveHandle(cs, h) <==> c in cs && c.handle != h
    decreases |cs|
  {
    if cs != [] {
      RemoveHandleMembers(cs[1..], h);
      assert forall c :: c in cs <==> c == cs[0] || c in cs[1..];
    }
  }

  /** Removing a handle that is not registered leaves the registry as it is. */
  lemma {:induction false} RemoveAbsent(cs: seq<Channel>, h: string)
    requires h !in Handles(cs)
    ensures RemoveHandle(cs, h) == cs
    decreases |cs|
  {
    if cs != [] {
      assert cs[0].handle == Handles(cs)[0];
      assert Handles(cs[1..]) == Handles(cs)[1..];
      RemoveAbsent(cs[1..], h);
      assert cs == [cs[0]] + cs[1..];
    }
  }

  /** After the DELETE the handle is no longer registered. */
  lemma RemoveDropsHandle(cs: seq<Channel>, h: string)
    ensures h !in Handles(RemoveHandle(cs, h))
  {
    var r := RemoveHandle(cs, h);
    RemoveHandleMembers(cs, h);
    forall i | 0 <= i < |r| ensures Handles(r)[i] != h {
      assert r[i] in r;
    }
  }

  /** Removal keeps the remaining channels in id order, so the registry stays valid. */
  lemma {:induction false} RemoveKeepsValid(cs: seq<Channel>, nextId: nat, h: string)
    requires RegistryValid(cs, nextId)
    ensures RegistryValid(RemoveHandle(cs, h), nextId)
    decreases |cs|
  {
    if cs != [] {
      assert RegistryValid(cs[1..], nextId) by {
        assert forall c :: c in cs[1..] ==> c in cs;
      }
      RemoveKeepsValid(cs[1..], nextId, h);
      var rest := RemoveHandle(cs[1..], h);
      RemoveHandleMembers(cs[1..], h);
      if cs[0].handle != h {
        forall c | c in rest ensures cs[0].id < c.id && cs[0].handle != c.handle {
          assert c in cs[1..];
          var k :| 0 <= k < |cs| - 1 && cs[1..][k] == c;
          assert cs[k + 1] == c;
        }
        ConsKeepsOrder(cs[0], rest);
      }
    }
  }

  lemma ConsKeepsOrder(c: Channel, rest: seq<Channel>)
    requires IdsAscending(rest) && HandlesUnique(rest)
    requires forall d :: d in rest ==> c.id < d.id && c.handle != d.handle
    ensures IdsAscending([c] + rest) && HandlesUnique([c] + rest)
  {
    var r := [c] + rest;
    forall i, j | 0 <= i < j < |r| ensures r[i].id < r[j].id && r[i].handle != r[j].handle {
      assert r[j] == rest[j - 1];
      if i > 0 {
        assert r[i] == rest[i - 1];
      } else {
        assert rest[j - 1] in rest;
      }
    }
  }

  /** Appending a fresh canonical handle with the next id keeps the registry valid. */
  lemma AppendKeepsValid(cs: seq<Channel>, nextId: nat, h: string)
    requires RegistryValid(cs, nextId)
    requires IsCanonical(h) && h !in Handles(cs)
    ensures RegistryValid(cs + [Channel(nextId, h)], nextId + 1)
  {
    var r := cs + [Channel(nextId, h)];
    assert forall c :: c in r ==> c in cs || c == Channel(nextId, h);
    assert IdsAscending(r) by {
      forall i, j | 0 <= i < j < |r| ensures r[i].id < r[j].id {
        assert r[i] in cs;
      }
    }
    assert HandlesUnique(r) by {
      forall i, j | 0 <= i < j < |r| ensures r[i].handle != r[j].handle {
        assert r[i] == cs[i];
        assert Handles(cs)[i] == cs[i].handle;
      }
    }
  }
}
