/** The upload store itself: what happens to the shared map and the session fields inside each
    critical section.  The interleaving of these sections is the subject of Uploads. */
module UploadStore {
  import opened Paths
  import U = Uploads

  class Session {
    const id: nat
    const dst: Path
    const size: nat
    var offset: nat
    var expiresAt: int
    var busy: bool

    constructor (id: nat, dst: Path, size: nat, expiresAt: int)
      ensures this.id == id && this.dst == dst && this.size == size
      ensures offset == 0 && this.expiresAt == expiresAt && !busy
    {
      this.id, this.dst, this.size, this.offset, this.expiresAt, this.busy := id, dst, size, 0, expiresAt, false;
    }

    function View(): U.Upload
      reads this
    {
      U.Upload(dst, size, [], offset, expiresAt, busy)
    }
  }

  datatype Code = Ok | NotFound | Conflict

  class Store {
    var m: map<nat, Session>

    constructor ()
      ensures m == map[]
    {
      m := map[];
    }

    ghost predicate Valid()
      reads this, m.Values
    {
      forall id | id in m :: m[id].id == id
    }

    /** The sessions in the store, as the steps of Uploads see them. */
    ghost function State(now: int): U.Store
      reads this, m.Values
    {
      U.Store(now, map id | id in m :: m[id].View(), m.Keys, {}, map[], map[], {}, {}, map[])
    }

    method Create(id: nat, dst: Path, size: nat, now: int, ttl: nat) returns (u: Session)
      requires Valid() && id !in m
      modifies this
      ensures Valid() && fresh(u) && m == old(m)[id := u]
      ensures State(now).objs == old(State(now)).objs[id := U.Upload(dst, size, [], 0, now + ttl, false)]
    {
      u := new Session(id, dst, size, now + ttl);
      m := m[id := u];
    }

    method Get(id: nat, now: int) returns (u: Session?)
      requires Valid()
      ensures u != null <==> U.Found(State(now), id)
      ensures u != null <==> id in m && now <= m[id].expiresAt
      ensures u != null ==> u == m[id]
    {
      if id !in m || now > m[id].expiresAt {
        return null;
      }
      return m[id];
    }

    /** Succeeds exactly if the session is there, not expired and idle, and then marks it busy. */
    method Acquire(id: nat, now: int) returns (u: Session?, code: Code)
      requires Valid()
      modifies m.Values
      ensures Valid() && m == old(m)
      ensures code == Ok <==> U.CanAcquire(old(State(now)), id)
      ensures code == Ok <==> id in m && old(now <= m[id].expiresAt && !m[id].busy)
      ensures code == Ok ==> u != null && id in m && u == m[id] && State(now) == U.SetBusy(old(State(now)), id, true)
      ensures code != Ok ==> u == null && State(now) == old(State(now))
      ensures code == Conflict <==> U.Found(old(State(now)), id) && old(State(now)).objs[id].busy
    {
      if id !in m || now > m[id].expiresAt {
        return null, NotFound;
      }
      u := m[id];
      if u.busy {
        return null, Conflict;
      }
      u.busy := true;
      code := Ok;
      assert forall i | i in m && i != id :: m[i] != u;
    }

    method Release(u: Session, now: int)
      requires Valid()
      modifies u
      ensures Valid() && m == old(m)
      ensures !u.busy && u.offset == old(u.offset) && u.expiresAt == old(u.expiresAt)
      ensures State(now).objs == if u in m.Values then U.SetBusy(old(State(now)), u.id, false).objs else old(State(now)).objs
    {
      u.busy := false;
      assert forall i | i in m && m[i] == u :: i == u.id;
    }

    /** The end of an append: n bytes have been written. */
    method Advance(u: Session, n: nat, now: int, ttl: nat)
      requires Valid()
      modifies u
      ensures Valid() && m == old(m)
      ensures u.offset == old(u.offset) + n && u.expiresAt == now + ttl && u.busy == old(u.busy)
      ensures forall i | i in m && m[i] != u :: State(now).objs[i] == old(State(now)).objs[i]
    {
      u.offset := u.offset + n;
      u.expiresAt := now + ttl;
    }

    method Forget(u: Session, now: int)
      requires Valid()
      modifies this
      ensures Valid() && m == old(m) - {u.id}
      ensures State(now).m == old(State(now)).m - {u.id}
    {
      m := m - {u.id};
    }

    /** The janitor's critical section: takes out exactly the expired idle sessions. */
    method Collect(now: int) returns (expired: set<Session>)
      requires Valid()
      modifies this
      ensures Valid() && m.Keys == old(m).Keys - U.ExpiredIdle(old(State(now)))
      ensures forall id | id in m :: m[id] == old(m)[id]
      ensures forall u | u in expired :: u.id in old(m) && old(m)[u.id] == u && u.id in U.ExpiredIdle(old(State(now)))
      ensures forall id | id in U.ExpiredIdle(old(State(now))) :: old(m)[id] in expired
      ensures forall id | id in old(m) :: id !in m <==> old(now > m[id].expiresAt && !m[id].busy)
    {
      ghost var s := State(now);
      var all := m;
      var todo := m.Keys;
      expired := {};
      while todo != {}
        invariant todo <= all.Keys
        invariant forall id | id in m :: id in all && m[id] == all[id]
        invariant forall id | id in all :: id in m <==> id in todo || id !in U.ExpiredIdle(s)
        invariant forall u | u in expired :: u.id in all && all[u.id] == u && u.id in U.ExpiredIdle(s)
        invariant forall id | id in all && id !in m :: all[id] in expired
        decreases todo
      {
        var id :| id in todo;
        assert s.objs[id] == all[id].View();
        if now > all[id].expiresAt && !all[id].busy {
          m := m - {id};
          expired := expired + {all[id]};
        }
        todo := todo - {id};
      }
    }
  }
}
