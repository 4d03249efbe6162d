/** The tunnels and the index from password hash to tunnel id. */
module TaskPasswords {
  import opened Common

  type Md5 = string -> string

  // The specification: passwords by tunnel id, and the index.

  datatype Store = Store(passwords: map<int, string>, index: map<string, int>)

  const EMPTY: Store := Store(map[], map[])

  /** The hash may be entered for this id. */
  predicate Free(index: map<string, int>, hash: string, id: int) {
    hash in index ==> index[hash] == id
  }

  /** The first of the password and the random draws that is free; None while all of them are taken. */
  function FirstFree(md5: Md5, index: map<string, int>, id: int, password: string, draws: seq<string>): Option<string>
    decreases |draws|
  {
    if Free(index, md5(password), id) then Some(password)
    else if draws == [] then None
    else FirstFree(md5, index, id, draws[0], draws[1..])
  }

  /** Secret and p2p tunnels without a password get the first draw. */
  predicate Fills(mode: string, password: string) {
    (mode == "secret" || mode == "p2p") && password == ""
  }

  function Filled(mode: string, password: string, draws: seq<string>): string {
    if Fills(mode, password) && draws != [] then draws[0] else password
  }

  function DrawsLeft(mode: string, password: string, draws: seq<string>): seq<string> {
    if Fills(mode, password) && draws != [] then draws[1..] else draws
  }

  /** The password a tunnel ends up with, given the index it is entered into. */
  function Settle(md5: Md5, index: map<string, int>, id: int, password: string, draws: seq<string>): Option<string> {
    if password == "" then Some("") else FirstFree(md5, index, id, password, draws)
  }

  /** Random strings are never empty, and there are enough of them. */
  predicate Enough(md5: Md5, index: map<string, int>, id: int, mode: string, password: string, draws: seq<string>) {
    && "" !in draws
    && (Fills(mode, password) ==> draws != [])
    && Settle(md5, index, id, Filled(mode, password, draws), DrawsLeft(mode, password, draws)).Some?
  }

  function Enter(md5: Md5, s: Store, id: int, password: string): Store {
    Store(s.passwords[id := password], if password == "" then s.index else s.index[md5(password) := id])
  }

  /** UpdateTask's removal of the entry it read as the old one. */
  function Forget(md5: Md5, index: map<string, int>, id: int, password: string): map<string, int> {
    if password != "" && md5(password) in index && index[md5(password)] == id then index - {md5(password)} else index
  }

  datatype Op =
    | New(id: int, mode: string, password: string, draws: seq<string>)
    | Replace(id: int, mode: string, password: string, draws: seq<string>)
    | Edit(id: int, mode: string, password: string, draws: seq<string>)
    | Delete(id: int)

  /** The old password UpdateTask sees: for a record edited in place it is the new one. */
  function SeenOld(s: Store, op: Op): string
    requires op.Replace? || op.Edit?
  {
    if op.Edit? then Filled(op.mode, op.password, op.draws)
    else if op.id in s.passwords then s.passwords[op.id]
    else ""
  }

  /** The index the password loop of an operation starts from. */
  function Base(md5: Md5, s: Store, op: Op): map<string, int>
    requires !op.Delete?
  {
    if op.New? then s.index else Forget(md5, s.index, op.id, SeenOld(s, op))
  }

  predicate Runs(md5: Md5, s: Store, op: Op) {
    op.Delete? || Enough(md5, Base(md5, s, op), op.id, op.mode, op.password, op.draws)
  }

  function Chosen(md5: Md5, s: Store, op: Op): string
    requires Runs(md5, s, op) && !op.Delete?
  {
    Settle(md5, Base(md5, s, op), op.id, Filled(op.mode, op.password, op.draws),
           DrawsLeft(op.mode, op.password, op.draws)).value
  }

  function Apply(md5: Md5, s: Store, op: Op): Store
    requires Runs(md5, s, op)
  {
    if op.Delete? then
      Store(s.passwords - {op.id},
            if op.id in s.passwords then s.index - {md5(s.passwords[op.id])} else s.index)
    else Enter(md5, Store(s.passwords, Base(md5, s, op)), op.id, Chosen(md5, s, op))
  }

  // Agreement.

  /** Every stored password, except perhaps one tunnel's, is indexed under its owner. */
  predicate AgreesExcept(md5: Md5, s: Store, but: set<int>) {
    forall id :: id in s.passwords && id !in but && s.passwords[id] != "" ==>
      md5(s.passwords[id]) in s.index && s.index[md5(s.passwords[id])] == id
  }

  predicate Agrees(md5: Md5, s: Store) {
    AgreesExcept(md5, s, {})
  }

  /** Every entry is the current password of a stored tunnel. */
  predicate NoStale(md5: Md5, s: Store) {
    forall h :: h in s.index ==>
      s.index[h] in s.passwords && s.passwords[s.index[h]] != "" && md5(s.passwords[s.index[h]]) == h
  }

  lemma {:induction false} FirstFreeIsFree(md5: Md5, index: map<string, int>, id: int, password: string,
                                           draws: seq<string>)
    requires FirstFree(md5, index, id, password, draws).Some? && password != "" && "" !in draws
    ensures var c := FirstFree(md5, index, id, password, draws).value;
      c != "" && Free(index, md5(c), id) && (c == password || c in draws)
    decreases |draws|
  {
    if !Free(index, md5(password), id) {
      FirstFreeIsFree(md5, index, id, draws[0], draws[1..]);
    }
  }

  lemma ChosenIsFree(md5: Md5, s: Store, op: Op)
    requires Runs(md5, s, op) && !op.Delete?
    ensures var c := Chosen(md5, s, op); c != "" ==> Free(Base(md5, s, op), md5(c), op.id)
  {
    var first := Filled(op.mode, op.password, op.draws);
    if first != "" {
      FirstFreeIsFree(md5, Base(md5, s, op), op.id, first, DrawsLeft(op.mode, op.password, op.draws));
    }
  }

  /** UpdateTask never drops an entry another tunnel relies on, whatever password it takes for the old one. */
  lemma ForgetKeepsOthers(md5: Md5, s: Store, id: int, password: string)
    requires AgreesExcept(md5, s, {id})
    ensures AgreesExcept(md5, s.(index := Forget(md5, s.index, id, password)), {id})
  {
  }

  lemma EnterAgrees(md5: Md5, s: Store, id: int, password: string)
    requires AgreesExcept(md5, s, {id}) && (password != "" ==> Free(s.index, md5(password), id))
    ensures Agrees(md5, Enter(md5, s, id, password))
  {
  }

  /** Deleting keeps the others indexed if and only if none of them has the deleted one's hash. */
  lemma DeleteAgreesExactly(md5: Md5, s: Store, id: int)
    requires AgreesExcept(md5, s, {id}) && id in s.passwords
    ensures Agrees(md5, Apply(md5, s, Delete(id))) <==>
      !exists j :: j in s.passwords && j != id && s.passwords[j] != "" && md5(s.passwords[j]) == md5(s.passwords[id])
  {
    var t := Apply(md5, s, Delete(id));
    if j :| j in s.passwords && j != id && s.passwords[j] != "" && md5(s.passwords[j]) == md5(s.passwords[id]) {
      assert j in t.passwords;
    }
  }

  /** No password hashes like the empty one. */
  ghost predicate EmptyApart(md5: Md5) {
    forall p :: md5(p) == md5("") ==> p == ""
  }

  lemma ApplyAgrees(md5: Md5, s: Store, op: Op)
    requires Agrees(md5, s) && Runs(md5, s, op) && EmptyApart(md5)
    ensures Agrees(md5, Apply(md5, s, op))
  {
    if op.Delete? {
      if op.id in s.passwords {
        DeleteAgreesExactly(md5, s, op.id);
      }
    } else {
      UpdateAgrees(md5, s, op);
    }
  }

  /** Entering a tunnel repairs its own entry, so a record edited in place ends up indexed. */
  lemma UpdateAgrees(md5: Md5, s: Store, op: Op)
    requires !op.Delete? && AgreesExcept(md5, s, {op.id}) && Runs(md5, s, op)
    ensures Agrees(md5, Apply(md5, s, op))
  {
    if !op.New? {
      ForgetKeepsOthers(md5, s, op.id, SeenOld(s, op));
    }
    ChosenIsFree(md5, s, op);
    EnterAgrees(md5, Store(s.passwords, Base(md5, s, op)), op.id, Chosen(md5, s, op));
  }

  /** The store after a run, None if some password loop did not finish. */
  function Run(md5: Md5, ops: seq<Op>): Option<Store> {
    if ops == [] then Some(EMPTY)
    else
      var before := Run(md5, ops[..|ops| - 1]);
      if before.Some? && Runs(md5, before.value, ops[|ops| - 1]) then
        Some(Apply(md5, before.value, ops[|ops| - 1]))
      else None
  }

  lemma {:induction false} RunAgrees(md5: Md5, ops: seq<Op>)
    requires EmptyApart(md5) && Run(md5, ops).Some?
    ensures Agrees(md5, Run(md5, ops).value) && md5("") !in Run(md5, ops).value.index
    decreases |ops|
  {
    if ops != [] {
      RunAgrees(md5, ops[..|ops| - 1]);
      ApplyAgrees(md5, Run(md5, ops[..|ops| - 1]).value, ops[|ops| - 1]);
      ApplyNoEmpty(md5, Run(md5, ops[..|ops| - 1]).value, ops[|ops| - 1]);
    }
  }

  /** The hash of no password is never entered. */
  lemma ApplyNoEmpty(md5: Md5, s: Store, op: Op)
    requires md5("") !in s.index && Runs(md5, s, op) && EmptyApart(md5)
    ensures md5("") !in Apply(md5, s, op).index
  {
  }

  /** The index lookup of GetTaskByMd5Password. */
  function Lookup(s: Store, hash: string): Option<int> {
    if hash in s.index && s.index[hash] in s.passwords then Some(s.index[hash]) else None
  }

  /** In every run each password opens its own tunnel and no two tunnels share one. */
  lemma EachOpensItsOwn(md5: Md5, ops: seq<Op>, id: int)
    requires EmptyApart(md5) && Run(md5, ops).Some?
    requires id in Run(md5, ops).value.passwords && Run(md5, ops).value.passwords[id] != ""
    ensures var s := Run(md5, ops).value;
      && Lookup(s, md5(s.passwords[id])) == Some(id)
      && forall j :: j in s.passwords && s.passwords[j] == s.passwords[id] ==> j == id
  {
    RunAgrees(md5, ops);
  }

  // The index against the full scan.

  /** A hash that the full scan finds belongs to this tunnel. */
  predicate ScanHit(md5: Md5, s: Store, hash: string, id: int) {
    id in s.passwords && md5(s.passwords[id]) == hash
  }

  /** An entry left behind by an earlier password of a stored tunnel. */
  predicate Stale(md5: Md5, s: Store, hash: string) {
    hash in s.index && s.index[hash] in s.passwords && md5(s.passwords[s.index[hash]]) != hash
  }

  /** A tunnel with a password that the scan finds is the one the index finds. */
  lemma ScanHitFound(md5: Md5, s: Store, hash: string, id: int)
    requires Agrees(md5, s) && ScanHit(md5, s, hash, id) && s.passwords[id] != ""
    ensures Lookup(s, hash) == Some(id)
  {
  }

  /** What the full scan answers, in whatever order it ranges. */
  predicate ScanAnswer(md5: Md5, s: Store, hash: string, found: Option<int>) {
    match found
    case Some(id) => ScanHit(md5, s, hash, id)
    case None => forall id :: id in s.passwords ==> !ScanHit(md5, s, hash, id)
  }

  predicate HasPasswordless(s: Store) {
    exists id :: id in s.passwords && s.passwords[id] == ""
  }

  /** For every hash, the index answers as the full scan if and only if the entry is not stale and the hash is
      not that of the empty password while some tunnel has none. */
  lemma LookupIsScan(md5: Md5, s: Store, hash: string, found: Option<int>)
    requires Agrees(md5, s) && md5("") !in s.index && ScanAnswer(md5, s, hash, found)
    ensures Lookup(s, hash) == found <==> !Stale(md5, s, hash) && !(hash == md5("") && HasPasswordless(s))
  {
    match found
    case Some(id) =>
      if s.passwords[id] != "" {
        ScanHitFound(md5, s, hash, id);
      }
    case None =>
      if hash in s.index && s.index[hash] in s.passwords {
        assert !ScanHit(md5, s, hash, s.index[hash]);
      }
  }

  /** Replacing the record or creating one under a new id leaves no stale entry. */
  lemma FreshRecordsLeaveNothing(md5: Md5, s: Store, op: Op)
    requires Agrees(md5, s) && NoStale(md5, s) && Runs(md5, s, op)
    requires !op.Edit? && (op.New? ==> op.id !in s.passwords)
    ensures NoStale(md5, Apply(md5, s, op))
  {
    if !op.Delete? {
      ChosenIsFree(md5, s, op);
      var t := Apply(md5, s, op);
      forall h | h in t.index
        ensures t.index[h] in t.passwords && t.passwords[t.index[h]] != "" && md5(t.passwords[t.index[h]]) == h
      {
      }
    }
  }

  /** Editing the stored record in place leaves the old hash behind unless there was none or it is the new one. */
  lemma EditLeavesOldHash(md5: Md5, s: Store, op: Op)
    requires Agrees(md5, s) && NoStale(md5, s) && Runs(md5, s, op) && op.Edit? && op.id in s.passwords
    ensures var was, t := s.passwords[op.id], Apply(md5, s, op);
      && (NoStale(md5, t) <==>
            was == "" || (Chosen(md5, s, op) != "" && md5(Chosen(md5, s, op)) == md5(was)))
      && (was != "" ==> Lookup(t, md5(was)) == Some(op.id))
  {
    ChosenIsFree(md5, s, op);
    var was, c, t := s.passwords[op.id], Chosen(md5, s, op), Apply(md5, s, op);
    if was != "" {
      OldHashStays(md5, s, op);
    }
    if was == "" || (c != "" && md5(c) == md5(was)) {
      forall h | h in t.index
        ensures t.index[h] in t.passwords && t.passwords[t.index[h]] != "" && md5(t.passwords[t.index[h]]) == h
      {
        assert h in s.index || h == md5(c);
      }
    }
  }

  lemma {:induction false} FirstFreeHash(md5: Md5, index: map<string, int>, id: int, password: string,
                                         draws: seq<string>, hash: string)
    requires FirstFree(md5, index, id, password, draws).Some? && forall i :: 0 <= i < |draws| ==> md5(draws[i]) != hash
    ensures var c := FirstFree(md5, index, id, password, draws).value;
      md5(c) == hash ==> c == password && Free(index, md5(password), id)
    ensures Free(index, md5(password), id) ==> FirstFree(md5, index, id, password, draws).value == password
    decreases |draws|
  {
    if !Free(index, md5(password), id) {
      FirstFreeHash(md5, index, id, draws[0], draws[1..], hash);
    }
  }

  /** What the caller writes decides: as long as no random draw hashes like the old password, an edit in place
      leaves nothing stale if and only if there was no password or the one written has the old hash.  A new
      password that is taken, an emptied one and one left to the random draw all leave the old hash behind. */
  lemma EditStaleExactly(md5: Md5, s: Store, op: Op)
    requires Agrees(md5, s) && NoStale(md5, s) && Runs(md5, s, op) && op.Edit? && op.id in s.passwords
    requires forall i :: 0 <= i < |op.draws| ==> md5(op.draws[i]) != md5(s.passwords[op.id])
    ensures var was := s.passwords[op.id];
      NoStale(md5, Apply(md5, s, op)) <==> was == "" || (op.password != "" && md5(op.password) == md5(was))
  {
    EditLeavesOldHash(md5, s, op);
    var was, first := s.passwords[op.id], Filled(op.mode, op.password, op.draws);
    if was != "" && first != "" {
      FirstFreeHash(md5, Base(md5, s, op), op.id, first, DrawsLeft(op.mode, op.password, op.draws), md5(was));
      FirstFreeIsFree(md5, Base(md5, s, op), op.id, first, DrawsLeft(op.mode, op.password, op.draws));
    }
  }

  lemma OldHashStays(md5: Md5, s: Store, op: Op)
    requires Agrees(md5, s) && Runs(md5, s, op) && op.Edit? && op.id in s.passwords && s.passwords[op.id] != ""
    ensures var t := Apply(md5, s, op); var h := md5(s.passwords[op.id]); h in t.index && t.index[h] == op.id
  {
    ChosenIsFree(md5, s, op);
    var h, seen := md5(s.passwords[op.id]), SeenOld(s, op);
    assert h in s.index && s.index[h] == op.id;
    if seen != "" && md5(seen) == h {
      assert Free(Base(md5, s, op), md5(seen), op.id);
      assert Chosen(md5, s, op) == seen;
    }
  }

  // The objects.

  class Tunnel {
    const id: int
    var password: string
    var mode: string

    constructor (id: int, mode: string, password: string)
      ensures this.id == id && this.mode == mode && this.password == password
    {
      this.id, this.mode, this.password := id, mode, password;
    }
  }

  function FinalMode(mode: string): string {
    if mode == "socks5" || mode == "httpProxy" then "mixProxy" else mode
  }

  class TaskDb {
    const md5: Md5
    var tasks: map<int, Tunnel>
    var index: map<string, int>

    ghost predicate Valid()
      reads this
    {
      forall id :: id in tasks ==> tasks[id].id == id
    }

    ghost function State(): Store
      reads this, tasks.Values
    {
      Store(map id | id in tasks :: tasks[id].password, index)
    }

    constructor (md5: Md5)
      ensures Valid() && State() == EMPTY && this.md5 == md5
    {
      this.md5, tasks, index := md5, map[], map[];
    }

    /** The loop that redraws the password until its hash is free; not done means it is still redrawing when
        the given draws are used up. */
    method Claim(t: Tunnel, draws: seq<string>) returns (done: bool)
      modifies this`index, t`password
      ensures done <==> old(FirstFree(md5, index, t.id, t.password, draws)).Some?
      ensures done ==> Some(t.password) == old(FirstFree(md5, index, t.id, t.password, draws))
      ensures done ==> index == old(index)[md5(t.password) := t.id]
      ensures !done ==> index == old(index)
    {
      var k := 0;
      while true
        invariant k <= |draws| && index == old(index)
        invariant FirstFree(md5, index, t.id, t.password, draws[k..])
               == old(FirstFree(md5, index, t.id, t.password, draws))
        decreases |draws| - k
      {
        var hash := md5(t.password);
        if hash !in index || index[hash] == t.id {
          index := index[hash := t.id];
          return true;
        }
        if k == |draws| {
          return false;
        }
        assert draws[k..][1..] == draws[k + 1..];
        t.password := draws[k];
        k := k + 1;
      }
    }

    /** The first lines of NewTask and UpdateTask. */
    method Fill(t: Tunnel, draws: seq<string>) returns (rest: seq<string>)
      requires Fills(t.mode, t.password) ==> draws != []
      modifies t`password
      ensures t.password == old(Filled(t.mode, t.password, draws))
      ensures rest == old(DrawsLeft(t.mode, t.password, draws))
    {
      rest := draws;
      if (t.mode == "secret" || t.mode == "p2p") && t.password == "" {
        t.password, rest := draws[0], draws[1..];
      }
    }

    /** Their last lines: enter the password and store the record. */
    method Put(t: Tunnel, draws: seq<string>)
      requires Valid() && "" !in draws && Settle(md5, index, t.id, t.password, draws).Some?
      modifies this, t
      ensures Valid() && tasks == old(tasks)[t.id := t] && t.mode == FinalMode(old(t.mode))
      ensures Some(t.password) == old(Settle(md5, index, t.id, t.password, draws))
      ensures index == if t.password == "" then old(index) else old(index)[md5(t.password) := t.id]
    {
      if t.password != "" {
        FirstFreeIsFree(md5, index, t.id, t.password, draws);
        var _ := Claim(t, draws);
      }
      t.mode := FinalMode(t.mode);
      tasks := tasks[t.id := t];
    }

    /** Only t's password differs. */
    twostate lemma OthersKept(t: Tunnel)
      requires old(Valid()) && tasks == old(tasks)[t.id := t]
      requires forall o: Tunnel :: o in old(tasks).Values && o != t ==> o.password == old(o.password)
      ensures State().passwords == old(State()).passwords[t.id := t.password]
    {
      forall id | id in old(tasks) && id != t.id ensures tasks[id].password == old(tasks[id].password) {
        assert tasks[id] == old(tasks)[id];
        assert tasks[id] in old(tasks).Values;
      }
    }

    method NewTask(t: Tunnel, draws: seq<string>)
      requires Valid() && Runs(md5, State(), New(t.id, t.mode, t.password, draws))
      modifies this, t
      ensures Valid() && tasks == old(tasks)[t.id := t] && t.mode == FinalMode(old(t.mode))
      ensures State() == old(Apply(md5, State(), New(t.id, t.mode, t.password, draws)))
    {
      var rest := Fill(t, draws);
      Put(t, rest);
      OthersKept(t);
    }

    /** The record given may be the stored one, already edited. */
    ghost function UpdateOp(t: Tunnel, draws: seq<string>): Op
      reads this, t
    {
      if t.id in tasks && tasks[t.id] == t then Edit(t.id, t.mode, t.password, draws)
      else Replace(t.id, t.mode, t.password, draws)
    }

    /** UpdateTask's removal of the old entry. */
    method DropOld(t: Tunnel)
      modifies this`index
      ensures index == Forget(md5, old(index), t.id, if t.id in tasks then tasks[t.id].password else "")
    {
      if t.id in tasks {
        var oldPwd := tasks[t.id].password;
        if oldPwd != "" {
          if md5(oldPwd) in index && index[md5(oldPwd)] == t.id {
            index := index - {md5(oldPwd)};
          }
        }
      }
    }

    method UpdateTask(t: Tunnel, draws: seq<string>)
      requires Valid() && Runs(md5, State(), UpdateOp(t, draws))
      modifies this, t
      ensures Valid() && tasks == old(tasks)[t.id := t] && t.mode == FinalMode(old(t.mode))
      ensures State() == old(Apply(md5, State(), UpdateOp(t, draws)))
      ensures old(AgreesExcept(md5, State(), {t.id})) ==> Agrees(md5, State())
    {
      ghost var before, op := State(), UpdateOp(t, draws);
      var rest := Fill(t, draws);
      DropOld(t);
      assert index == Base(md5, before, op);
      Put(t, rest);
      OthersKept(t);
      if AgreesExcept(md5, before, {t.id}) {
        UpdateAgrees(md5, before, op);
      }
    }

    method DelTask(id: int)
      requires Valid()
      modifies this
      ensures Valid() && tasks == old(tasks) - {id}
      ensures State() == old(Apply(md5, State(), Delete(id)))
    {
      if id in tasks {
        index := index - {md5(tasks[id].password)};
      }
      tasks := tasks - {id};
    }

    method GetTaskByMd5Password(hash: string) returns (t: Tunnel?)
      requires Valid()
      ensures t == null <==> Lookup(State(), hash).None?
      ensures t != null ==> Lookup(State(), hash) == Some(t.id) && tasks[t.id] == t
    {
      t := null;
      if hash in index {
        var id := index[hash];
        if id in tasks {
          t := tasks[id];
        }
      }
    }

    /** The scan that the index replaced, ranging over the tunnels in some order. */
    method GetTaskByMd5PasswordOld(hash: string, order: seq<int>) returns (t: Tunnel?)
      requires Valid() && forall id :: id in order <==> id in tasks
      ensures ScanAnswer(md5, State(), hash, if t == null then None else Some(t.id))
      ensures t != null ==> t.id in tasks && tasks[t.id] == t
      ensures Agrees(md5, State()) && t != null && t.password != "" ==> Lookup(State(), hash) == Some(t.id)
    {
      var k := 0;
      while k < |order|
        invariant 0 <= k <= |order|
        invariant forall i :: 0 <= i < k ==> !ScanHit(md5, State(), hash, order[i])
      {
        var id := order[k];
        assert id in order;
        if md5(tasks[id].password) == hash {
          t := tasks[id];
          assert ScanHit(md5, State(), hash, id);
          if Agrees(md5, State()) && t.password != "" {
            ScanHitFound(md5, State(), hash, id);
          }
          return;
        }
        k := k + 1;
      }
      forall id | id in tasks ensures !ScanHit(md5, State(), hash, id) {
        assert id in order;
      }
      return null;
    }
  }
}
