/** What registering and removing addresses amounts to over supersteps and whole runs: the register that every
  * processor holds, and what it translates, as a function of the calls. */
module RegisterRuns {
  import opened Columns
  import opened Threads
  import opened Registers
  import opened Delivery
  import opened Supersteps
  import opened Protocol
  import opened Removals
  import opened RunProperties

  /** The addresses whose registrations a list of calls removes. */
  function Removed(calls: seq<Call>): seq<int> {
    if calls == [] then []
    else
      var last := calls[|calls| - 1];
      Removed(calls[..|calls| - 1]) + if last.PopRegCall? then [last.ident] else []
  }

  lemma RecordRemoves(log: seq<Record>, rec: Record, t: ItemType)
    requires t == PopRegItem
    ensures Addresses(Select(log + [rec], t)) == Addresses(Select(log, t)) + if rec.info.PopReg?
      then [rec.info.popped] else []
  {
    Append(log, rec, t);
    if rec.info.PopReg? {
      RemovalAppended(Select(log, t), rec);
    }
  }

  lemma RemovalAppended(list: seq<Record>, rec: Record)
    requires rec.info.PopReg?
    ensures Addresses(list + [rec]) == Addresses(list) + [rec.info.popped]
  {
    var x, y := Addresses(list + [rec]), Addresses(list) + [rec.info.popped];
    forall k | 0 <= k < |x| ensures x[k] == y[k] {
      assert k < |list| ==> (list + [rec])[k] == list[k];
    }
  }

  lemma CallRemoves(st: Proc, p: nat, n: nat, call: Call)
    requires Shaped(st, n) && p < n && Legal(st, p, n, call)
    ensures |Apply(st, p, call).log| == n
    ensures Addresses(Select(Apply(st, p, call).log[p], PopRegItem))
         == Addresses(Select(st.log[p], PopRegItem)) + if call.PopRegCall? then [call.ident] else []
  {
    CallLogs(st, p, n, call, p);
    var rec := CallRecord(st, p, n, call, p);
    if rec.Some? {
      RecordRemoves(st.log[p], rec.value, PopRegItem);
    }
  }

  /** The removals that a processor logs for itself are those of its calls, in order. */
  lemma {:induction false} CallsRemove(st: Proc, p: nat, n: nat, calls: seq<Call>)
    requires Shaped(st, n) && p < n && LegalAll(st, p, n, calls) && NothingLogged(st, n)
    ensures var st' := DoAll(st, p, n, calls);
            |st'.log| == n && Addresses(Select(st'.log[p], PopRegItem)) == Removed(calls)
    decreases |calls|
  {
    if calls != [] {
      var i := |calls| - 1;
      LegalPrefix(st, p, n, calls, i);
      CallsRemove(st, p, n, calls[..i]);
      var before := DoAll(st, p, n, calls[..i]);
      assert Legal(before, p, n, calls[i]);
      CallRemoves(before, p, n, calls[i]);
    } else {
      assert Select(st.log[p], PopRegItem) == [];
    }
  }

  // ----- one superstep -----

  /** q's column of p with the new registrations of p, before anything is removed. */
  function Column(calls: seq<seq<Call>>, a: seq<Proc>, q: nat, p: nat): seq<int>
    requires p < |calls| == |a| && q < |a| && p < |a[q].reg|
  {
    a[q].reg[p] + Registered(calls[p])
  }

  lemma MarksOf(calls: seq<seq<Call>>, a: seq<Proc>, e: seq<Proc>, q: nat)
    requires CallsMade(calls, a, e) && q < |a|
    ensures |a[q].reg| == |a|
    ensures var here := Column(calls, a, q, q);
      SyncMarks(e, q) == PopMarks(here, NoneRemoved(|here|), Removed(calls[q]))
  {
    assert CallsMadeAt(calls, a, e, q) && Shaped(a[q], |a|);
    NewColumnIs(calls, a, e, q, q);
    CallsRemove(a[q], q, |a|, calls[q]);
  }

  /** q removes no address more often than it is registered there. */
  predicate Removable(calls: seq<seq<Call>>, a: seq<Proc>, q: nat) {
    q < |calls| == |a| == |a[q].reg| && multiset(Removed(calls[q])) <= multiset(a[q].reg[q] + Registered(calls[q]))
  }

  /** The boundary fails on q exactly if q removes an address more often than it is registered. */
  lemma BoundaryFailsIff(calls: seq<seq<Call>>, a: seq<Proc>, e: seq<Proc>, q: nat)
    requires CallsMade(calls, a, e) && q < |a| && Level(e, q)
    ensures SyncDefined(e, q) <==> Removable(calls, a, q)
  {
    MarksOf(calls, a, e, q);
    RemovalsMark(Column(calls, a, q, q), Removed(calls[q]));
  }

  /** All processors register equally often. */
  lemma LevelIff(calls: seq<seq<Call>>, a: seq<Proc>, e: seq<Proc>, q: nat)
    requires CallsMade(calls, a, e) && q < |a|
    ensures |a[q].reg| == |a|
    ensures Level(e, q) <==>
      forall p: nat :: p < |a| ==> |Column(calls, a, q, p)| == |Column(calls, a, q, q)|
  {
    NewColumnIs(calls, a, e, q, q);
    forall p: nat | p < |a| ensures NewColumns(e, q)[p] == Column(calls, a, q, p) {
      NewColumnIs(calls, a, e, q, p);
    }
  }

  /** Behind the boundary, q's column of p is the one before with the new registrations of p, less one row for every
    * removal by q: the last rows of the removed addresses. */
  lemma NextRegister(calls: seq<seq<Call>>, a: seq<Proc>, e: seq<Proc>, b: seq<Proc>, q: nat, p: nat)
    requires Superstep(calls, a, e, b) && p < |a| && q < |a|
    ensures |a[q].reg| == |b[q].reg| == |a|
    ensures |Column(calls, a, q, p)| == |Column(calls, a, q, q)|
    ensures b[q].reg[p] == Kept(Column(calls, a, q, q), Column(calls, a, q, p), multiset(Removed(calls[q])))
  {
    assert SuperstepAt(calls, a, e, b, q);
    SuperstepMakesCalls(calls, a, e, b);
    MarksOf(calls, a, e, q);
    LevelIff(calls, a, e, q);
    NewColumnIs(calls, a, e, q, p);
    var here, there := Column(calls, a, q, q), Column(calls, a, q, p);
    RemovalsMark(here, Removed(calls[q]));
    KeepIsKept(here, there, SyncMarks(e, q).value, multiset(Removed(calls[q])));
    SyncProcIs(e, q, SyncMarks(e, q).value);
  }

  /** Removing one registration drops exactly the last row with its address, in every column. */
  lemma OneRemoval(calls: seq<seq<Call>>, a: seq<Proc>, e: seq<Proc>, b: seq<Proc>, q: nat, p: nat, address: int,
                   row: nat)
    requires Superstep(calls, a, e, b) && p < |a| && q < |a| && |a[q].reg| == |a| && Removed(calls[q]) == [address]
    requires IsRow(Column(calls, a, q, q), address, 0, row)
    ensures |b[q].reg| == |a| && row < |Column(calls, a, q, p)|
    ensures b[q].reg[p] == Column(calls, a, q, p)[..row] + Column(calls, a, q, p)[row + 1..]
  {
    NextRegister(calls, a, e, b, q, p);
    assert multiset([address]) == multiset{address};
    OneDropped(Column(calls, a, q, q), Column(calls, a, q, p), address, row);
  }

  lemma LastRowTranslates(st: Proc, n: nat, q: nat, p: nat, address: int, row: nat)
    requires Shaped(st, n) && p < n && q < n && IsRow(st.reg[q], address, 0, row)
    ensures address in st.reg[q] && Remote(st, q, p, address) == st.reg[p][row]
  {
    var here := st.reg[q];
    assert here[row] == address;
    LiveAddress(here, address);
    assert address !in here[row + 1..];
    forall k | row < k < |here| ensures here[k] != address {
      assert here[row + 1..][k - row - 1] == here[k];
    }
  }

  /** Behind the boundary an address translates to what stands in the row that has as many later rows with the same
    * address as the address has removals ... */
  lemma TranslationBehind(calls: seq<seq<Call>>, a: seq<Proc>, e: seq<Proc>, b: seq<Proc>, q: nat, p: nat,
                          address: int, row: nat)
    requires Superstep(calls, a, e, b) && p < |a| && q < |a| && |a[q].reg| == |a|
    requires IsRow(Column(calls, a, q, q), address, multiset(Removed(calls[q]))[address], row)
    ensures row < |Column(calls, a, q, p)| && Shaped(b[q], |a|) && address in b[q].reg[q]
    ensures Remote(b[q], q, p, address) == Column(calls, a, q, p)[row]
  {
    assert SuperstepAt(calls, a, e, b, q);
    NextRegister(calls, a, e, b, q, q);
    NextRegister(calls, a, e, b, q, p);
    var r := KeptRow(Column(calls, a, q, q), Column(calls, a, q, p), multiset(Removed(calls[q])), address, row);
    LastRowTranslates(b[q], |a|, q, p, address, r);
  }

  /** ... and it is registered only if there is such a row. */
  lemma RegisteredBehind(calls: seq<seq<Call>>, a: seq<Proc>, e: seq<Proc>, b: seq<Proc>, q: nat, address: int)
    requires Superstep(calls, a, e, b) && q < |a|
    ensures |a[q].reg| == |b[q].reg| == |a|
    ensures address in b[q].reg[q]
       <==> multiset(Removed(calls[q]))[address] < multiset(Column(calls, a, q, q))[address]
  {
    NextRegister(calls, a, e, b, q, q);
    KeptOften(Column(calls, a, q, q), multiset(Removed(calls[q])), address);
    assert address in b[q].reg[q] <==> address in multiset(b[q].reg[q]);
  }

  // ----- whole runs -----

  /** The registers of all processors, by processor and then by column. */
  type Tables = seq<seq<seq<int>>>

  predicate Square(regs: Tables) {
    forall q :: 0 <= q < |regs| ==> |regs[q]| == |regs|
  }

  /** What a superstep with these calls makes of column p of processor q. */
  function NextColumn(calls: seq<seq<Call>>, regs: Tables, q: nat, p: nat): seq<int>
    requires Square(regs) && |calls| == |regs| && q < |regs| && p < |regs|
  {
    var here, there := regs[q][q] + Registered(calls[q]), regs[q][p] + Registered(calls[p]);
    if |here| == |there| then Kept(here, there, multiset(Removed(calls[q]))) else []
  }

  function NextTables(calls: seq<seq<Call>>, regs: Tables): (next: Tables)
    requires Square(regs) && |calls| == |regs|
    ensures |next| == |regs| && Square(next)
  {
    seq(|regs|, q requires 0 <= q < |regs| => seq(|regs|, p requires 0 <= p < |regs| => NextColumn(calls, regs, q, p)))
  }

  /** Calls for every one of n processors. */
  predicate ForAll(prog: Program, n: nat) {
    forall j :: 0 <= j < |prog| ==> |prog[j]| == n
  }

  /** The registers at the start of superstep k, from the calls alone. */
  function TablesAt(prog: Program, regs: Tables, k: nat): (r: Tables)
    requires k <= |prog| && Square(regs) && ForAll(prog, |regs|)
    ensures |r| == |regs| && Square(r)
  {
    if k == 0 then regs else NextTables(prog[k - 1], TablesAt(prog, regs, k - 1))
  }

  /** The registers that states hold. */
  function TablesOf(ps: seq<Proc>): (regs: Tables)
    ensures |regs| == |ps| && forall q :: 0 <= q < |ps| ==> regs[q] == ps[q].reg
  {
    seq(|ps|, q requires 0 <= q < |ps| => ps[q].reg)
  }

  lemma WorldIsSquare(ps: seq<Proc>)
    requires World(ps)
    ensures Square(TablesOf(ps))
  {
    forall q: nat | q < |ps| ensures |ps[q].reg| == |ps| { assert Shaped(ps[q], |ps|); }
  }

  lemma NextTablesAre(calls: seq<seq<Call>>, a: seq<Proc>, e: seq<Proc>, b: seq<Proc>)
    requires Superstep(calls, a, e, b) && Square(TablesOf(a))
    ensures TablesOf(b) == NextTables(calls, TablesOf(a))
  {
    var x, y := TablesOf(b), NextTables(calls, TablesOf(a));
    forall q: nat | q < |a| ensures x[q] == y[q] {
      NextRegister(calls, a, e, b, q, q);
      forall p: nat | p < |a| ensures x[q][p] == y[q][p] {
        NextRegister(calls, a, e, b, q, p);
      }
    }
  }

  lemma {:induction false} TablesOfRun(prog: Program, states: seq<seq<Proc>>, ends: seq<seq<Proc>>, k: nat)
    requires IsRun(prog, states, ends) && k <= |prog| && Square(TablesOf(states[0])) && ForAll(prog, |states[0]|)
    ensures TablesOf(states[k]) == TablesAt(prog, TablesOf(states[0]), k)
  {
    if k > 0 {
      TablesOfRun(prog, states, ends, k - 1);
      NextTablesAre(prog[k - 1], states[k - 1], ends[k - 1], states[k]);
    }
  }

  /** The registers in superstep k of a legal program hold what the calls before have registered and not removed. */
  lemma TablesOfProgram(prog: Program, init: seq<Proc>, k: nat)
    requires LegalProgram(prog, init) && Fresh(init) && k <= |prog|
    ensures Square(TablesOf(init)) && ForAll(prog, |init|)
    ensures TablesOf(AtStart(prog, init, k)) == TablesAt(prog, TablesOf(init), k)
  {
    WorldIsSquare(init);
    forall j: nat | j < |prog| ensures |prog[j]| == |init| { assert LegalStep(prog, init, j); }
    var states, ends := LegalRun(prog, init);
    assert Starts(prog, init, 0, states[0]) && Starts(prog, init, k, states[k]);
    assert states[0] == AtStart(prog, init, 0) && states[k] == AtStart(prog, init, k);
    TablesOfRun(prog, states, ends, k);
  }
}
