/** The lock bookkeeping of a database: a simplified form of SQLite version 3's
    lock states (shared, reserved, exclusive; no pending state).  Holders are
    connection ids.  A refused request raises in the source and changes
    nothing; here it is `None`.  The Database class keeps these three parts in
    its own fields and its methods are specified by these functions. */
module Locks {
  import opened Wrappers

  datatype LockState = LockState(shared: set<int>, reserved: Option<int>, exclusive: Option<int>)

  const NoLocks := LockState({}, None, None)

  /** Some connection other than `id` holds this single-holder lock. */
  predicate HeldByOther(holder: Option<int>, id: int)
  {
    holder.Some? && holder.value != id
  }

  /** Connection `id` holds no lock at all. */
  predicate HoldsNothing(s: LockState, id: int)
  {
    id !in s.shared && s.reserved != Some(id) && s.exclusive != Some(id)
  }

  /** The compatibility the operations below maintain: while someone holds
      exclusive, nobody else holds shared or reserved. */
  ghost predicate Consistent(s: LockState)
  {
    s.exclusive.Some? ==>
      s.shared <= {s.exclusive.value} && (s.reserved.None? || s.reserved == s.exclusive)
  }

  function AddReserved(s: LockState, id: int): (r: Option<LockState>)
    ensures r.Some? <==> s.reserved == Some(id) || s.exclusive == Some(id) || (s.reserved.None? && s.exclusive.None?)
    ensures r.Some? ==> r.value.shared == s.shared && r.value.exclusive == s.exclusive
    ensures r.Some? ==> r.value.reserved == (if s.reserved.None? && s.exclusive.None? then Some(id) else s.reserved)
  {
    if s.reserved.None? && s.exclusive.None? then Some(s.(reserved := Some(id)))
    else if s.reserved == Some(id) then Some(s)
    else if s.exclusive == Some(id) then Some(s)
    else None
  }

  function ReleaseReserved(s: LockState, id: int): LockState
  {
    if s.reserved == Some(id) then s.(reserved := None) else s
  }

  function AddShared(s: LockState, id: int): (r: Option<LockState>)
    ensures r.Some? <==> !HeldByOther(s.exclusive, id)
    ensures r.Some? ==> r.value == s.(shared := s.shared + {id})
  {
    if s.exclusive == Some(id) then Some(s.(shared := s.shared + {id}))
    else if s.exclusive.Some? then None
    else Some(s.(shared := s.shared + {id}))
  }

  function RemoveShared(s: LockState, id: int): LockState
  {
    s.(shared := s.shared - {id})
  }

  function ReleaseExclusive(s: LockState, id: int): LockState
  {
    if s.exclusive == Some(id) then s.(exclusive := None) else s
  }

  /** Granted only when no OTHER connection holds exclusive or reserved and
      the shared holders are none or exactly `id`. */
  function AddExclusive(s: LockState, id: int): (r: Option<LockState>)
    ensures r.Some? <==> !HeldByOther(s.exclusive, id) && !HeldByOther(s.reserved, id) && s.shared <= {id}
    ensures r.Some? ==> r.value == s.(exclusive := Some(id))
  {
    if HeldByOther(s.exclusive, id) then None
    else if HeldByOther(s.reserved, id) then None
    else if |s.shared| == 0 || (|s.shared| == 1 && id in s.shared) then
      assert s.shared <= {id} by {
        if |s.shared| == 1 { assert |s.shared - {id}| == 0; }
      }
      Some(s.(exclusive := Some(id)))
    else None
  }

  /** `Database.commit`: upgrade to exclusive when the transaction wrote, then
      drop the exclusive, shared and reserved locks of `id`. */
  function Commit(s: LockState, id: int, needsExclusive: bool): Option<LockState>
  {
    var upgraded := if needsExclusive then AddExclusive(s, id) else Some(s);
    if upgraded.None? then None
    else Some(ReleaseReserved(RemoveShared(ReleaseExclusive(upgraded.value, id), id), id))
  }

  /** The three releases of ROLLBACK, in the source's order. */
  function Rollback(s: LockState, id: int): LockState
  {
    RemoveShared(ReleaseReserved(ReleaseExclusive(s, id), id), id)
  }

  /** The locks an INSERT, UPDATE or DELETE takes outside a transaction:
      reserved, exclusive, then both released.  The state after the steps
      that ran, and whether all of them ran. */
  function AutocommitWrite(s: LockState, id: int): (LockState, bool)
  {
    var r := AddReserved(s, id);
    if r.None? then (s, false)
    else
      var x := AddExclusive(r.value, id);
      if x.None? then (r.value, false)
      else (ReleaseExclusive(ReleaseReserved(x.value, id), id), true)
  }

  /** The locks a SELECT takes outside a transaction: shared, then released. */
  function AutocommitRead(s: LockState, id: int): (LockState, bool)
  {
    var r := AddShared(s, id);
    if r.None? then (s, false) else (RemoveShared(r.value, id), true)
  }

  /** In a consistent state, reserved is granted exactly when no other
      connection holds reserved or exclusive; asking again is a no-op. */
  lemma AddReservedGrant(s: LockState, id: int)
    requires Consistent(s)
    ensures AddReserved(s, id).Some? <==> !HeldByOther(s.reserved, id) && !HeldByOther(s.exclusive, id)
    ensures AddReserved(s, id).Some? ==> AddReserved(AddReserved(s, id).value, id) == AddReserved(s, id)
  {
  }

  lemma ConsistentPreserved(s: LockState, id: int)
    requires Consistent(s)
    ensures AddReserved(s, id).Some? ==> Consistent(AddReserved(s, id).value)
    ensures AddShared(s, id).Some? ==> Consistent(AddShared(s, id).value)
    ensures AddExclusive(s, id).Some? ==> Consistent(AddExclusive(s, id).value)
    ensures Consistent(ReleaseReserved(s, id))
    ensures Consistent(RemoveShared(s, id))
    ensures Consistent(ReleaseExclusive(s, id))
  {
  }

  /** Once `a` holds exclusive, every other connection is refused every lock. */
  lemma ExclusiveExcludesOthers(s: LockState, a: int, b: int)
    requires a != b && AddExclusive(s, a).Some?
    ensures var t := AddExclusive(s, a).value;
      AddExclusive(t, b).None? && AddShared(t, b).None? && AddReserved(t, b).None?
  {
  }

  /** A shared lock held by `a` keeps any other connection from exclusive. */
  lemma SharedBlocksOtherExclusive(s: LockState, a: int, b: int)
    requires a != b && AddShared(s, a).Some?
    ensures AddExclusive(AddShared(s, a).value, b).None?
  {
    assert a in AddShared(s, a).value.shared;
  }

  /** A connection that is the only shared holder may upgrade to exclusive. */
  lemma OwnSharedUpgrades(a: int)
    ensures AddShared(NoLocks, a).Some?
    ensures AddExclusive(AddShared(NoLocks, a).value, a).Some?
  {
  }

  /** A commit that goes through leaves `id` holding nothing and the other
      connections' locks as they were; it fails exactly when the upgrade it
      needs is refused, and then nothing changes. */
  lemma CommitReleases(s: LockState, id: int, needsExclusive: bool)
    ensures Commit(s, id, needsExclusive).None? <==> needsExclusive && AddExclusive(s, id).None?
    ensures Commit(s, id, needsExclusive).Some? ==>
      var t := Commit(s, id, needsExclusive).value;
      HoldsNothing(t, id) && t.shared == s.shared - {id}
      && (HeldByOther(s.reserved, id) ==> t.reserved == s.reserved)
      && (HeldByOther(s.exclusive, id) ==> t.exclusive == s.exclusive)
  {
  }

  lemma RollbackReleases(s: LockState, id: int)
    ensures HoldsNothing(Rollback(s, id), id)
    ensures Rollback(s, id).shared == s.shared - {id}
    ensures HeldByOther(s.reserved, id) ==> Rollback(s, id).reserved == s.reserved
    ensures HeldByOther(s.exclusive, id) ==> Rollback(s, id).exclusive == s.exclusive
  {
  }

  /** An autocommit write that gets through leaves `id` with neither reserved
      nor exclusive.  One refused at the exclusive step keeps the reserved
      lock it was just granted: the source never releases it. */
  lemma AutocommitWriteOutcome(s: LockState, id: int)
    ensures AutocommitWrite(s, id).1 <==> AddReserved(s, id).Some? && AddExclusive(AddReserved(s, id).value, id).Some?
    ensures AutocommitWrite(s, id).1 ==>
      var t := AutocommitWrite(s, id).0;
      t.reserved.None? && t.exclusive.None? && t.shared == s.shared
    ensures Consistent(s) && AddReserved(s, id).Some? && !AutocommitWrite(s, id).1 ==>
      AutocommitWrite(s, id).0.reserved == Some(id)
  {
  }

  /** The exclusive step of an autocommit write is refused while another
      connection holds a shared lock: the write then leaves `id` holding the
      reserved lock even though nobody held it before. */
  lemma AutocommitWriteLeaksReserved(a: int, b: int)
    requires a != b
    ensures var s := LockState({b}, None, None);
      !AutocommitWrite(s, a).1 && AutocommitWrite(s, a).0.reserved == Some(a)
  {
    var s := LockState({b}, None, None);
    assert AddReserved(s, a).value == LockState({b}, Some(a), None);
    assert !({b} <= {a});
  }
}
