/**
 The first-boot race for the persisted JWT secret: any number of processes read, insert if absent and re-read
 one singleton row, with no lock held around the three statements.
 */
module JwtSecret {
  import opened Wrappers

  const SECRET_LENGTH: nat := 64

  // ----- the two statements -----

  class SecretStore {
    var row: Option<string>

    constructor ()
      ensures row == None
    {
      row := None;
    }

    method Get() returns (secret: Option<string>)
      ensures secret == row
    {
      secret := row;
    }

    /** ON CONFLICT DO NOTHING: returns the inserted secret, or no row when one was there. */
    method InsertIfAbsent(candidate: string) returns (inserted: Option<string>)
      modifies this
      ensures inserted == if old(row).None? then Some(candidate) else None
      ensures row == if old(row).None? then Some(candidate) else old(row)
    {
      if row.Some? {
        return None;
      }
      row := Some(candidate);
      inserted := row;
    }

    /**
     `rival` is a secret some other process inserts, if it can, between the read and the insert.  Whoever comes
     first is stored for good, what is returned is what is stored, and a short stored secret is refused.
     */
    method FetchOrGenerate(candidate: string, rival: Option<string>) returns (secret: Option<string>)
      requires |candidate| == SECRET_LENGTH
      modifies this
      ensures row == if old(row).Some? then old(row) else if rival.Some? then rival else Some(candidate)
      ensures secret == if |row.value| >= SECRET_LENGTH then row else None
    {
      var stored := Get();
      if rival.Some? {
        var _ := InsertIfAbsent(rival.value);
      }
      if stored.Some? {
        return if |stored.value| < SECRET_LENGTH then None else stored;
      }
      var inserted := InsertIfAbsent(candidate);
      if inserted.Some? {
        return inserted;
      }
      var winner := Get();
      secret := if |winner.value| < SECRET_LENGTH then None else winner;
    }
  }

  // ----- any number of processes -----

  type Pid = int

  datatype Proc = Booting | Missing(candidate: string) | Lost | Returned(secret: string) | Failed

  datatype State = State(row: Option<string>, procs: map<Pid, Proc>)

  /** `Fail` is a process that dies or meets a database error at any point. */
  datatype Step =
    | Boot(p: Pid)
    | Read(p: Pid, candidate: string)
    | Insert(p: Pid)
    | Reread(p: Pid)
    | Fail(p: Pid)

  predicate Enabled(s: State, step: Step) {
    match step
    case Boot(p) => p !in s.procs
    case Read(p, candidate) => p in s.procs && s.procs[p].Booting? && |candidate| == SECRET_LENGTH
    case Insert(p) => p in s.procs && s.procs[p].Missing?
    case Reread(p) => p in s.procs && s.procs[p].Lost?
    case Fail(p) => p in s.procs && !s.procs[p].Returned?
  }

  function Checked(row: Option<string>): Proc {
    if row.None? || |row.value| < SECRET_LENGTH then Failed else Returned(row.value)
  }

  function Apply(s: State, step: Step): State
    requires Enabled(s, step)
  {
    match step
    case Boot(p) => s.(procs := s.procs[p := Booting])
    case Read(p, candidate) => s.(procs := s.procs[p := if s.row.None? then Missing(candidate) else Checked(s.row)])
    case Insert(p) =>
      if s.row.Some? then s.(procs := s.procs[p := Lost])
      else State(Some(s.procs[p].candidate), s.procs[p := Returned(s.procs[p].candidate)])
    case Reread(p) => s.(procs := s.procs[p := Checked(s.row)])
    case Fail(p) => s.(procs := s.procs[p := Failed])
  }

  /** Whoever returned, returned the stored secret, and it is long enough; candidates are too. */
  ghost predicate Inv(s: State) {
    && (forall p :: p in s.procs && s.procs[p].Returned? ==>
          s.row == Some(s.procs[p].secret) && |s.procs[p].secret| >= SECRET_LENGTH)
    && (forall p :: p in s.procs && s.procs[p].Missing? ==> |s.procs[p].candidate| == SECRET_LENGTH)
  }

  lemma StepKeepsInv(s: State, step: Step)
    requires Inv(s) && Enabled(s, step)
    ensures Inv(Apply(s, step))
    ensures s.row.Some? ==> Apply(s, step).row == s.row
  {
  }

  ghost predicate IsRun(run: seq<State>, steps: seq<Step>) {
    && |run| == |steps| + 1 && run[0].procs == map[]
    && forall i :: 0 <= i < |steps| ==> Enabled(run[i], steps[i]) && run[i + 1] == Apply(run[i], steps[i])
  }

  lemma {:induction false} RowIsForever(run: seq<State>, steps: seq<Step>, i: nat, j: nat)
    requires IsRun(run, steps) && i <= j < |run|
    ensures Inv(run[j])
    ensures run[i].row.Some? ==> run[j].row == run[i].row
    decreases j
  {
    if j > 0 {
      RowIsForever(run, steps, if i < j then i else 0, j - 1);
      StepKeepsInv(run[j - 1], steps[j - 1]);
    }
  }

  /** In every interleaving, all processes that return agree on the persisted secret of at least 64 characters. */
  lemma ProcessesAgree(run: seq<State>, steps: seq<Step>, i: nat, j: nat, p: Pid, q: Pid)
    requires IsRun(run, steps) && i <= j < |run|
    requires p in run[i].procs && run[i].procs[p].Returned?
    requires q in run[j].procs && run[j].procs[q].Returned?
    ensures run[i].procs[p].secret == run[j].procs[q].secret
    ensures run[j].row == Some(run[j].procs[q].secret) && |run[j].procs[q].secret| >= 64
  {
    RowIsForever(run, steps, 0, i);
    RowIsForever(run, steps, i, j);
  }

  /** Once a process has returned a secret, every later boot that gets to read returns it at once. */
  lemma LaterBootsReturnIt(run: seq<State>, steps: seq<Step>, i: nat, j: nat, p: Pid)
    requires IsRun(run, steps) && i <= j < |steps|
    requires p in run[i].procs && run[i].procs[p].Returned?
    requires steps[j].Read? || steps[j].Reread?
    ensures run[j + 1].procs[steps[j].p] == Returned(run[i].procs[p].secret)
  {
    RowIsForever(run, steps, 0, i);
    RowIsForever(run, steps, i, j);
  }

  // ----- what each statement does -----

  /** On an empty table: whoever inserts first stores its own candidate and returns it; a later inserter has lost. */
  lemma FirstInsertWins(s: State, p: Pid, candidate: string)
    requires p in s.procs && s.procs[p].Booting? && s.row.None? && |candidate| == SECRET_LENGTH
    ensures var read := Apply(s, Read(p, candidate));
            && read.row.None? && read.procs[p] == Missing(candidate)
            && Apply(read, Insert(p)).row == Some(candidate)
            && Apply(read, Insert(p)).procs[p] == Returned(candidate)
  {
  }

  /**
   With a row stored: a read or re-read returns it if it is long enough and fails otherwise; an insert changes
   nothing.
   */
  lemma StoredRowDecides(s: State, step: Step)
    requires s.row.Some? && Enabled(s, step) && !step.Boot? && !step.Fail?
    ensures Apply(s, step).row == s.row
    ensures Apply(s, step).procs ==
            s.procs[step.p := if step.Insert? then Lost
                              else if |s.row.value| >= 64 then Returned(s.row.value) else Failed]
  {
  }

  /** So on an empty table the first boot of all ends with a stored secret, returned by its inserter. */
  lemma FirstBootStores(p: Pid, candidate: string) returns (run: seq<State>, steps: seq<Step>)
    requires |candidate| == SECRET_LENGTH
    ensures IsRun(run, steps) && run[0].row.None?
    ensures run[|run| - 1].row == Some(candidate) && run[|run| - 1].procs == map[p := Returned(candidate)]
  {
    var s0 := State(None, map[]);
    var s1 := Apply(s0, Boot(p));
    var s2 := Apply(s1, Read(p, candidate));
    run, steps := [s0, s1, s2, Apply(s2, Insert(p))], [Boot(p), Read(p, candidate), Insert(p)];
  }
}
