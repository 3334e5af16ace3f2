/** The members of one room and their grace timers, apart from everything else: what makes them
    consistent, and that each of the four ways in which a slot changes keeps it so.
 */
module RoomSlots {
  import opened RoomModel

  ghost predicate Distinct(us: seq<User>) {
    forall i, j :: 0 <= i < j < |us| ==>
      us[i].id != us[j].id && us[i].token != us[j].token
      && (us[i].socket.Some? ==> us[i].socket != us[j].socket)
  }

  ghost predicate Seated(u: User, joining: set<nat>, reclaimed: multiset<nat>, next: nat) {
    && u.connected == u.socket.Some?
    && u.id < next && u.token < next && u.token !in reclaimed
    && (u.socket.Some? ==> u.socket.value !in joining)
  }

  /** Two slots at most, told apart by id, token and socket; connected means having a socket;
      a socket with a join in flight holds no slot; tokens in use were never used up. */
  ghost predicate SlotsOf(us: seq<User>, joining: set<nat>, reclaimed: multiset<nat>, next: nat) {
    && |us| <= MAX_USERS && Distinct(us)
    && (forall i :: 0 <= i < |us| ==> Seated(us[i], joining, reclaimed, next))
    && (forall t :: t in reclaimed ==> t < next && reclaimed[t] == 1)
  }

  ghost predicate HasId(us: seq<User>, id: nat) {
    exists i :: 0 <= i < |us| && us[i].id == id
  }

  /** Grace timers of a live room: one for each disconnected user and no other, each still
      armed, none armed besides. */
  ghost predicate TimersOf(us: seq<User>, grace: map<nat, nat>, armed: map<nat, nat>, next: nat) {
    && (forall i :: 0 <= i < |us| ==> (us[i].id in grace <==> !us[i].connected))
    && (forall id :: id in grace ==> HasId(us, id) && grace[id] in armed && armed[grace[id]] == id)
    && (forall t :: t in armed ==> t < next && armed[t] in grace && grace[armed[t]] == t)
  }

  ghost predicate HeldBy(us: seq<User>, i: int, id: nat) {
    0 <= i < |us| && us[i].connected && us[i].id == id
  }

  // ---------------------------------------------------------------------------------------
  // Admission, change of one slot, removal
  // ---------------------------------------------------------------------------------------

  lemma SlotAdded(us: seq<User>, u: User, joining: set<nat>, reclaimed: multiset<nat>, next: nat)
    requires SlotsOf(us, joining, reclaimed, next) && |us| < MAX_USERS
    requires u.id == next && u.token == next + 1 && u.connected && u.socket.Some? && u.socket.value in joining
    ensures SlotsOf(us + [u], joining - {u.socket.value}, reclaimed, next + 2)
  {
    forall i | 0 <= i < |us|
        ensures (us + [u])[i] == us[i] && Seated(us[i], joining - {u.socket.value}, reclaimed, next + 2) {
      assert Seated(us[i], joining, reclaimed, next);
    }
  }

  lemma SlotReplaced(us: seq<User>, i: nat, v: User, joining: set<nat>, used: set<nat>, before: multiset<nat>,
                     after: multiset<nat>, next: nat, later: nat)
    requires SlotsOf(us, joining, before, next) && i < |us| && next < later
    requires v.id == us[i].id && (v.token == us[i].token || v.token == next) && v.connected == v.socket.Some?
    requires v.socket.Some? ==> v.socket.value in used && v.socket.value in joining
    requires after == before || (after == before + multiset{us[i].token} && v.token == next)
    ensures SlotsOf(us[i := v], joining - used, after, later)
  {
    assert Seated(us[i], joining, before, next);
    forall k | 0 <= k < |us| && k != i
      ensures us[i := v][k] == us[k] && Seated(us[k], joining - used, after, later) && us[k].token != v.token
    {
      assert Seated(us[k], joining, before, next);
      assert us[k].token != us[i].token;
    }
  }

  lemma SlotRemoved(us: seq<User>, i: nat, vs: seq<User>, joining: set<nat>, reclaimed: multiset<nat>, next: nat)
    requires SlotsOf(us, joining, reclaimed, next) && i < |us|
    requires |vs| == |us| - 1 && (|us| == 2 ==> vs[0] == us[1 - i])
    ensures SlotsOf(vs, joining, reclaimed, next)
  {
  }

  lemma TimersAdded(us: seq<User>, u: User, grace: map<nat, nat>, armed: map<nat, nat>, next: nat, later: nat)
    requires TimersOf(us, grace, armed, next) && next <= later
    requires u.connected && !HasId(us, u.id)
    ensures TimersOf(us + [u], grace, armed, later)
  {
    var vs := us + [u];
    assert forall i :: 0 <= i < |us| ==> vs[i] == us[i];
    forall id | HasId(us, id) ensures HasId(vs, id) {
      var i :| 0 <= i < |us| && us[i].id == id;
      assert vs[i].id == id;
    }
  }

  lemma IdKept(us: seq<User>, i: nat, v: User, id: nat)
    requires i < |us| && v.id == us[i].id && HasId(us, id)
    ensures HasId(us[i := v], id)
  {
    var k :| 0 <= k < |us| && us[k].id == id;
    assert us[i := v][k].id == id;
  }

  lemma TimersCancelled(us: seq<User>, i: nat, v: User, grace: map<nat, nat>, armed: map<nat, nat>, next: nat,
                        later: nat)
    requires TimersOf(us, grace, armed, next) && next <= later && i < |us| && Distinct(us)
    requires v.id == us[i].id && v.connected
    ensures TimersOf(us[i := v], grace - {v.id}, if v.id in grace then armed - {grace[v.id]} else armed, later)
  {
    var left, still := grace - {v.id}, if v.id in grace then armed - {grace[v.id]} else armed;
    var vs := us[i := v];
    forall k | 0 <= k < |vs| ensures vs[k].id in left <==> !vs[k].connected {
      assert k != i ==> vs[k] == us[k] && us[k].id != us[i].id;
    }
    forall t | t in still ensures t < later && still[t] in left && left[still[t]] == t {
      assert t in armed && armed[t] in grace && grace[armed[t]] == t;
    }
    forall id | id in left ensures HasId(us[i := v], id) && left[id] in still && still[left[id]] == id {
      assert HasId(us, id) && grace[id] in armed && armed[grace[id]] == id;
      IdKept(us, i, v, id);
    }
  }

  lemma TimersStarted(us: seq<User>, i: nat, v: User, grace: map<nat, nat>, armed: map<nat, nat>, timer: nat)
    requires TimersOf(us, grace, armed, timer) && i < |us| && Distinct(us)
    requires us[i].connected && v.id == us[i].id && !v.connected
    ensures TimersOf(us[i := v], grace[v.id := timer], armed[timer := v.id], timer + 1)
  {
    forall id | HasId(us, id) ensures HasId(us[i := v], id) {
      IdKept(us, i, v, id);
    }
    assert us[i := v][i].id == v.id;
  }

  lemma TimersExpired(us: seq<User>, i: nat, vs: seq<User>, grace: map<nat, nat>, armed: map<nat, nat>, timer: nat,
                      next: nat)
    requires TimersOf(us, grace, armed, next) && Distinct(us) && i < |us| <= 2
    requires timer in armed && armed[timer] == us[i].id
    requires |vs| == |us| - 1 && (|us| == 2 ==> vs[0] == us[1 - i])
    ensures TimersOf(vs, grace - {us[i].id}, armed - {timer}, next)
    ensures vs == [] ==> grace - {us[i].id} == map[] && armed - {timer} == map[]
  {
    forall id | id in grace && id != us[i].id ensures HasId(vs, id) {
      var k :| 0 <= k < |us| && us[k].id == id;
      assert vs[0].id == id;
    }
  }
}
