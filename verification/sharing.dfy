/** The family-sharing permission table (`components/SharingModal.tsx`).
    The stored object maps a guest's email to the owner email whose ledger
    the guest may see. A JavaScript object keeps its keys in insertion
    order and holds each key once, so the table is modelled as a list of
    entries: assigning an existing key rewrites its entry in place,
    assigning a new key appends, deleting drops the entry. That no guest
    appears twice is the invariant `GuestsUnique`, which the operations
    preserve (`AssignUnique`, `RemoveUnique`) and the lemmas that need it
    require. */
module Sharing {
  import opened Wrappers
  import opened Seqs
  import opened Types

  datatype Entry = Entry(guest: string, owner: string)

  type Permissions = seq<Entry>

  /** Each guest email is a key at most once. */
  predicate GuestsUnique(p: Permissions)
  {
    forall i, j :: 0 <= i < j < |p| ==> p[i].guest != p[j].guest
  }

  /** Every recorded owner is a non-empty email. */
  predicate OwnersNonEmpty(p: Permissions)
  {
    forall i :: 0 <= i < |p| ==> p[i].owner != ""
  }

  /** `permissions[guest]`: the owner recorded for `guest`, if any. */
  function Lookup(p: Permissions, guest: string): (r: Option<string>)
    ensures r.None? <==> forall i :: 0 <= i < |p| ==> p[i].guest != guest
    ensures r.Some? ==> exists i :: 0 <= i < |p| && p[i] == Entry(guest, r.value)
  {
    if p == [] then None
    else if p[0].guest == guest then Some(p[0].owner)
    else
      var r := Lookup(p[1..], guest);
      assert forall i :: 0 < i < |p| ==> p[i] == p[1..][i - 1];
      r
  }

  /** With distinct guests, the owner of any entry is what the lookup finds. */
  lemma {:induction false} LookupEntry(p: Permissions, i: nat)
    requires GuestsUnique(p) && i < |p|
    ensures Lookup(p, p[i].guest) == Some(p[i].owner)
  {
    if i > 0 {
      assert p[1..][i - 1] == p[i];
      LookupEntry(p[1..], i - 1);
    }
  }

  /** `if (permissions[guest])`: the guest has an entry whose owner is a
      truthy (non-empty) string. */
  predicate Taken(p: Permissions, guest: string)
  {
    Lookup(p, guest).Some? && Lookup(p, guest).value != ""
  }

  /** `permissions[guest] = owner`: rewrite the guest's entry in place, or
      append a new one. */
  function Assign(p: Permissions, guest: string, owner: string): (r: Permissions)
    ensures Lookup(p, guest).None? ==> r == p + [Entry(guest, owner)]
    ensures Lookup(p, guest).Some? ==> |r| == |p|
    ensures forall i :: (0 <= i < |p| && p[i].guest == guest && (forall j :: 0 <= j < i ==> p[j].guest != guest)
      ==> r == p[i := Entry(guest, owner)])
  {
    if p == [] then [Entry(guest, owner)]
    else if p[0].guest == guest then [Entry(guest, owner)] + p[1..]
    else
      var r := [p[0]] + Assign(p[1..], guest, owner);
      assert p == [p[0]] + p[1..];
      forall i | 0 < i < |p| && p[i].guest == guest && (forall j :: 0 <= j < i ==> p[j].guest != guest)
        ensures r == p[i := Entry(guest, owner)]
      {
        assert p[1..][i - 1].guest == guest;
        assert forall j :: 0 <= j < i - 1 ==> p[1..][j].guest != guest by {
          forall j | 0 <= j < i - 1 ensures p[1..][j].guest != guest { assert p[1..][j] == p[j + 1]; }
        }
        ConsUpdate(p, i, Entry(guest, owner));
      }
      r
  }

  /** Updating past the head of a list is updating its tail. */
  lemma ConsUpdate<T>(p: seq<T>, i: nat, e: T)
    requires 0 < i < |p|
    ensures [p[0]] + p[1..][i - 1 := e] == p[i := e]
  {
  }

  /** After the assignment the guest maps to the new owner and every other
      guest keeps its owner. */
  lemma {:induction false} AssignLookup(p: Permissions, guest: string, owner: string, h: string)
    ensures Lookup(Assign(p, guest, owner), h) == if h == guest then Some(owner) else Lookup(p, h)
  {
    if p != [] && p[0].guest != guest {
      AssignLookup(p[1..], guest, owner, h);
    }
  }

  lemma {:induction false} AssignUnique(p: Permissions, guest: string, owner: string)
    requires GuestsUnique(p)
    ensures GuestsUnique(Assign(p, guest, owner))
  {
    if p != [] && p[0].guest != guest {
      var rest := Assign(p[1..], guest, owner);
      assert GuestsUnique(p[1..]);
      AssignUnique(p[1..], guest, owner);
      forall i | 0 <= i < |rest|
        ensures rest[i].guest != p[0].guest
      {
        AssignLookup(p[1..], guest, owner, p[0].guest);
        LookupEntry(rest, i);
        assert Lookup(p[1..], p[0].guest).None?;
      }
    }
  }

  lemma {:induction false} AssignOwners(p: Permissions, guest: string, owner: string)
    requires OwnersNonEmpty(p) && owner != ""
    ensures OwnersNonEmpty(Assign(p, guest, owner))
  {
    if p != [] && p[0].guest != guest {
      AssignOwners(p[1..], guest, owner);
    }
  }

  /** `delete permissions[guest]`: drop the guest's entry whatever its owner. */
  function Remove(p: Permissions, guest: string): (r: Permissions)
    ensures Lookup(r, guest).None?
    ensures Lookup(p, guest).None? ==> r == p
  {
    if p == [] then []
    else
      var rest := Remove(p[1..], guest);
      assert Lookup(p, guest).None? ==> Lookup(p[1..], guest).None?;
      if p[0].guest == guest then rest else [p[0]] + rest
  }

  /** Deleting one guest leaves every other guest's owner as it was. */
  lemma {:induction false} RemoveLookup(p: Permissions, guest: string, h: string)
    ensures Lookup(Remove(p, guest), h) == if h == guest then None else Lookup(p, h)
  {
    if p != [] {
      RemoveLookup(p[1..], guest, h);
    }
  }

  lemma {:induction false} RemoveUnique(p: Permissions, guest: string)
    requires GuestsUnique(p)
    ensures GuestsUnique(Remove(p, guest))
  {
    if p != [] {
      var rest := Remove(p[1..], guest);
      assert GuestsUnique(p[1..]);
      RemoveUnique(p[1..], guest);
      if p[0].guest != guest {
        RemoveLookup(p[1..], guest, p[0].guest);
        assert Lookup(p[1..], p[0].guest).None?;
        assert forall i :: 0 <= i < |rest| ==> rest[i].guest != p[0].guest;
      }
    }
  }

  lemma {:induction false} RemoveOwners(p: Permissions, guest: string)
    requires OwnersNonEmpty(p)
    ensures OwnersNonEmpty(Remove(p, guest))
  {
    if p != [] {
      assert OwnersNonEmpty(p[1..]);
      RemoveOwners(p[1..], guest);
    }
  }

  /** The listing effect: the guests whose recorded owner is `owner`, in
      table order (`Object.entries(...).forEach(...)`). */
  function GuestsOf(p: Permissions, owner: string): (r: seq<string>)
    ensures forall g :: g in r <==> exists i :: 0 <= i < |p| && p[i] == Entry(g, owner)
    ensures GuestsUnique(p) ==> NoDuplicates(r)
  {
    if p == [] then []
    else
      var rest := GuestsOf(p[1..], owner);
      assert forall i :: 0 < i < |p| ==> p[i] == p[1..][i - 1];
      assert p == [p[0]] + p[1..];
      if p[0].owner == owner then [p[0].guest] + rest else rest
  }

  /** With distinct guests, the listing holds exactly the guests whose
      lookup yields `owner`. */
  lemma ListingIsLookup(p: Permissions, owner: string, g: string)
    requires GuestsUnique(p)
    ensures g in GuestsOf(p, owner) <==> Lookup(p, g) == Some(owner)
  {
    if g in GuestsOf(p, owner) {
      var i :| 0 <= i < |p| && p[i] == Entry(g, owner);
      LookupEntry(p, i);
    }
  }

  lemma {:induction false} GuestsOfSnoc(p: Permissions, e: Entry, owner: string)
    ensures GuestsOf(p + [e], owner) == GuestsOf(p, owner) + (if e.owner == owner then [e.guest] else [])
  {
    if p != [] {
      assert (p + [e])[1..] == p[1..] + [e];
      GuestsOfSnoc(p[1..], e, owner);
    }
  }

  /** Revoking removes the guest from the listing and keeps the others in order. */
  lemma {:induction false} GuestsOfRemove(p: Permissions, owner: string, g: string)
    ensures GuestsOf(Remove(p, g), owner) == Filter(GuestsOf(p, owner), NotEmail(g))
  {
    if p != [] {
      GuestsOfRemove(p[1..], owner, g);
      var rest := GuestsOf(p[1..], owner);
      if p[0].owner == owner {
        FilterConcat([p[0].guest], rest, NotEmail(g));
        FilterSingle(p[0].guest, NotEmail(g));
      }
    }
  }

  function NotEmail(g: string): string -> bool
  {
    (e: string) => e != g
  }

  lemma FilterSingle<T>(x: T, p: T -> bool)
    ensures Filter([x], p) == if p(x) then [x] else []
  {
    assert DropLast([x]) == [];
  }

  /** What `handleInvite` reported. */
  datatype Outcome =
    | Ignored        // empty invite field: nothing happens
    | SelfShare      // "you cannot share with yourself"
    | AlreadyShared  // "this user is already part of another family account"
    | Granted        // "access granted to ..."

  datatype InviteResult = InviteResult(table: Permissions, outcome: Outcome)

  /** `users.find(u => u.email === email)`: the first registered user with
      that email. */
  function FindUser(users: seq<User>, email: string): (r: Option<User>)
    ensures r.None? <==> forall i :: 0 <= i < |users| ==> users[i].email != email
    ensures r.Some? ==> r.value.email == email && r.value in users
  {
    if users == [] then None
    else if users[0].email == email then Some(users[0])
    else
      var r := FindUser(users[1..], email);
      assert forall i :: 0 < i < |users| ==> users[i] == users[1..][i - 1];
      r
  }

  /** `handleInvite` for the signed-in owner `me`, the typed `invite` email and
      the stored registry `users`. */
  function Invite(p: Permissions, me: string, invite: string, users: seq<User>): (r: InviteResult)
    ensures r.outcome == Ignored <==> invite == ""
    ensures r.outcome == SelfShare <==> invite != "" && invite == me
    ensures r.outcome == AlreadyShared <==> invite != "" && invite != me && Taken(p, invite)
    ensures r.outcome != Granted ==> r.table == p
    ensures r.outcome == Granted ==> r.table == Assign(p, invite, me)
  {
    if invite == "" then InviteResult(p, Ignored)
    else if invite == me then InviteResult(p, SelfShare)
    else
      // The registry lookup is made and then never consulted.
      var userExists := FindUser(users, invite);
      if Taken(p, invite) then InviteResult(p, AlreadyShared)
      else InviteResult(Assign(p, invite, me), Granted)
  }

  /** A granted invite records `invite ↦ me` and no other guest's owner
      changes; with distinct guests the table stays keyed by guest and the
      new guest is listed under `me` at once. */
  lemma InviteGrant(p: Permissions, me: string, invite: string, users: seq<User>, h: string)
    requires Invite(p, me, invite, users).outcome == Granted
    ensures Lookup(Invite(p, me, invite, users).table, h) == if h == invite then Some(me) else Lookup(p, h)
    ensures GuestsUnique(p) ==> GuestsUnique(Invite(p, me, invite, users).table)
    ensures GuestsUnique(p) ==> invite in GuestsOf(Invite(p, me, invite, users).table, me)
  {
    AssignLookup(p, invite, me, h);
    if GuestsUnique(p) {
      var q := Assign(p, invite, me);
      AssignUnique(p, invite, me);
      AssignLookup(p, invite, me, invite);
      ListingIsLookup(q, me, invite);
    }
  }

  /** Whether the invited email belongs to a registered user makes no difference. */
  lemma InviteIgnoresRegistry(p: Permissions, me: string, invite: string, a: seq<User>, b: seq<User>)
    ensures Invite(p, me, invite, a) == Invite(p, me, invite, b)
  {
  }

  /** Granting keeps the owners non-empty as long as the granting owner is. */
  lemma InviteKeepsOwners(p: Permissions, me: string, invite: string, users: seq<User>)
    requires OwnersNonEmpty(p) && me != ""
    ensures OwnersNonEmpty(Invite(p, me, invite, users).table)
  {
    if Invite(p, me, invite, users).outcome == Granted {
      AssignOwners(p, invite, me);
    }
  }

  /** With owners non-empty, an invite is granted exactly when the guest has
      no entry yet, and the grant appends it. */
  lemma GrantAppends(p: Permissions, me: string, invite: string, users: seq<User>)
    requires OwnersNonEmpty(p)
    requires Invite(p, me, invite, users).outcome == Granted
    ensures Lookup(p, invite).None?
    ensures Invite(p, me, invite, users).table == p + [Entry(invite, me)]
  {
  }

  /** The listing after a grant is the old listing with the new guest at the
      end, which is how the modal updates its own list. */
  lemma ListingAfterGrant(p: Permissions, me: string, invite: string, users: seq<User>)
    requires OwnersNonEmpty(p)
    requires Invite(p, me, invite, users).outcome == Granted
    ensures GuestsOf(Invite(p, me, invite, users).table, me) == GuestsOf(p, me) + [invite]
  {
    GrantAppends(p, me, invite, users);
    GuestsOfSnoc(p, Entry(invite, me), me);
  }

  /** The listing after a revoke is the old listing without that guest, which
      is how the modal updates its own list. */
  lemma ListingAfterRevoke(p: Permissions, me: string, guest: string)
    ensures GuestsOf(Remove(p, guest), me) == Filter(GuestsOf(p, me), NotEmail(guest))
  {
    GuestsOfRemove(p, me, guest);
  }

  /** How many entries the guest has. */
  function EntriesFor(p: Permissions, guest: string): nat
  {
    if p == [] then 0
    else (if p[0].guest == guest then 1 else 0) + EntriesFor(p[1..], guest)
  }

  lemma {:induction false} UniqueEntries(p: Permissions, guest: string)
    requires GuestsUnique(p)
    ensures EntriesFor(p, guest) == if Lookup(p, guest).Some? then 1 else 0
  {
    if p != [] {
      assert forall i :: 0 < i < |p| ==> p[i] == p[1..][i - 1];
      UniqueEntries(p[1..], guest);
      if p[0].guest == guest {
        assert Lookup(p[1..], guest).None?;
      }
    }
  }

  /** Inviting the same guest twice: the second invite is refused and the
      table keeps exactly one entry for the guest. */
  lemma InviteTwice(p: Permissions, me: string, invite: string, users: seq<User>)
    requires GuestsUnique(p) && me != ""
    requires Invite(p, me, invite, users).outcome == Granted
    ensures var q := Invite(p, me, invite, users).table;
            && Invite(q, me, invite, users) == InviteResult(q, AlreadyShared)
            && EntriesFor(q, invite) == 1
  {
    var q := Invite(p, me, invite, users).table;
    AssignLookup(p, invite, me, invite);
    AssignUnique(p, invite, me);
    UniqueEntries(q, invite);
  }
}
