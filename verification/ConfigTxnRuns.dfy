/** What every run of config transactions keeps: any interleaving of any number of operations,
    any failures and crashes, and other handlers rewriting the live config in between. */
module ConfigTxnRuns {
  import opened Wrappers
  import opened ConfigTxn

  datatype Action =
    | Prepare(op: OpId, submitted: Content, expected: Option<Digest>)
    | Activate(op: OpId)
    | Rollback(op: OpId)
    | Commit(op: OpId)
    | Abort(op: OpId)
    | Foreign(config: Option<Content>)  // another handler replaces the live config

  datatype Event = Event(action: Action, env: Env)

  /** The disk, and for every operation with metadata what its prepare read and staged. */
  datatype World = World(disk: Disk, origin: map<OpId, Content>, candidate: map<OpId, Content>)

  function Act(d: Disk, e: Event, norm: Normalizer): (Disk, Reply) {
    match e.action
    case Prepare(op, c, x) => PrepareStep(d, op, c, x, norm, e.env)
    case Activate(op) => ActivateStep(d, op, e.env)
    case Rollback(op) => RollbackStep(d, op, e.env)
    case Commit(op) => CommitStep(d, op, e.env)
    case Abort(op) => AbortStep(d, op, e.env)
    case Foreign(c) => (d.(config := c), Ok(Prepared, true))
  }

  function Next(w: World, e: Event, norm: Normalizer): World {
    var (d, reply) := Act(w.disk, e, norm);
    if e.action.Prepare? && norm(e.action.submitted).Some? && reply == Ok(Prepared, false)
    then World(d, w.origin[e.action.op := w.disk.Live()],
               w.candidate[e.action.op := norm(e.action.submitted).value])
    else w.(disk := d)
  }

  /** A prepare that can read the metadata of its operation. */
  predicate Readable(e: Event) {
    e.action.Prepare? ==> e.env.readMeta
  }

  function Run(config: Option<Content>, events: seq<Event>, norm: Normalizer): World {
    if events == [] then World(Disk(config, map[]), map[], map[])
    else Next(Run(config, events[..|events| - 1], norm), events[|events| - 1], norm)
  }

  ghost predicate Sound(t: Txn, op: OpId, w: World) {
    t.meta.Some? ==>
      && op in w.origin && op in w.candidate
      && t.meta.value.oldHash == Hash(w.origin[op])
      && t.meta.value.newHash == Hash(w.candidate[op])
      && (t.backup == Some(w.origin[op]) || (t.meta.value.state == Committed && t.backup == None))
      && (t.staged == Some(w.candidate[op])
          || ((t.meta.value.state == Committed || t.meta.value.state == RolledBack) && t.staged == None))
  }

  ghost predicate Inv(w: World) {
    forall op: OpId :: Sound(w.disk.Files(op), op, w)
  }

  /** An action touches the files of no operation but its own. */
  lemma OthersUntouched(w: World, e: Event, norm: Normalizer, op: OpId)
    requires e.action.Foreign? || e.action.op != op
    ensures var w' := Next(w, e, norm);
            && w'.disk.Files(op) == w.disk.Files(op)
            && (op in w'.origin <==> op in w.origin) && (op in w.origin ==> w'.origin[op] == w.origin[op])
            && (op in w'.candidate <==> op in w.candidate)
            && (op in w.candidate ==> w'.candidate[op] == w.candidate[op])
  {}

  lemma PrepareKeeps(w: World, e: Event, norm: Normalizer)
    requires Inv(w) && e.action.Prepare? && Readable(e)
    ensures Sound(Next(w, e, norm).disk.Files(e.action.op), e.action.op, Next(w, e, norm))
  {
    assert Sound(w.disk.Files(e.action.op), e.action.op, w);
  }

  lemma ActivateKeeps(w: World, e: Event, norm: Normalizer)
    requires Inv(w) && e.action.Activate?
    ensures Sound(Next(w, e, norm).disk.Files(e.action.op), e.action.op, Next(w, e, norm))
  {
    assert Sound(w.disk.Files(e.action.op), e.action.op, w);
  }

  lemma RollbackKeeps(w: World, e: Event, norm: Normalizer)
    requires Inv(w) && e.action.Rollback?
    ensures Sound(Next(w, e, norm).disk.Files(e.action.op), e.action.op, Next(w, e, norm))
  {
    assert Sound(w.disk.Files(e.action.op), e.action.op, w);
  }

  lemma CommitKeeps(w: World, e: Event, norm: Normalizer)
    requires Inv(w) && e.action.Commit?
    ensures Sound(Next(w, e, norm).disk.Files(e.action.op), e.action.op, Next(w, e, norm))
  {
    var op := e.action.op;
    var t, t' := w.disk.Files(op), CommitStep(w.disk, op, e.env).0.Files(op);
    assert Sound(t, op, w);
    assert t' == t || (
        && t.meta.Some? && t'.meta == Some(t.meta.value.(state := Committed))
        && (t'.backup == t.backup || t'.backup == None)
        && (t'.staged == t.staged || t'.staged == None));
  }

  lemma NextKeepsInv(w: World, e: Event, norm: Normalizer)
    requires Inv(w) && Readable(e)
    ensures Inv(Next(w, e, norm))
  {
    forall op: OpId ensures Sound(Next(w, e, norm).disk.Files(op), op, Next(w, e, norm)) {
      assert Sound(w.disk.Files(op), op, w);
      if e.action.Foreign? || e.action.op != op {
        OthersUntouched(w, e, norm, op);
      } else {
        match e.action
        case Prepare(_, _, _) => PrepareKeeps(w, e, norm);
        case Activate(_) => ActivateKeeps(w, e, norm);
        case Rollback(_) => RollbackKeeps(w, e, norm);
        case Commit(_) => CommitKeeps(w, e, norm);
        case Abort(_) =>
      }
    }
  }

  lemma {:induction false} RunKeepsInv(config: Option<Content>, events: seq<Event>, norm: Normalizer)
    requires forall e | e in events :: Readable(e)
    ensures Inv(Run(config, events, norm))
  {
    if events != [] {
      RunKeepsInv(config, events[..|events| - 1], norm);
      NextKeepsInv(Run(config, events[..|events| - 1], norm), events[|events| - 1], norm);
    }
  }

  /** Some run of requests, failures, crashes and foreign writes leads to w, in which every
      prepare can read the metadata of its operation, if there is any. */
  ghost predicate Reachable(w: World, norm: Normalizer) {
    exists config, events :: w == Run(config, events, norm) && forall e | e in events :: Readable(e)
  }

  lemma ReachableIsSound(w: World, norm: Normalizer, op: OpId)
    requires Reachable(w, norm)
    ensures Sound(w.disk.Files(op), op, w)
  {
    var config, events :| w == Run(config, events, norm) && forall e | e in events :: Readable(e);
    RunKeepsInv(config, events, norm);
  }

  // ----- recovery -----

  /** After any run, crashes included, a transaction that has metadata and is not committed
      can be rolled back, and that brings back exactly the bytes its prepare read. */
  lemma Recoverable(w: World, norm: Normalizer, op: OpId)
    requires Reachable(w, norm)
    requires w.disk.Files(op).meta.Some? && w.disk.Files(op).meta.value.state != Committed
    ensures op in w.origin
    ensures RollbackStep(w.disk, op, CALM).1 == Ok(RolledBack, false)
    ensures RollbackStep(w.disk, op, CALM).0.Live() == w.origin[op]
  {
    ReachableIsSound(w, norm, op);
  }

  /** Rollback ignores an error reading the live config.  It still restores the bytes exactly
      when the live config can be read, or those bytes are not empty, or the config already
      reads as them. */
  lemma RollbackWithUnreadableConfig(w: World, norm: Normalizer, op: OpId, readable: bool)
    requires Reachable(w, norm)
    requires w.disk.Files(op).meta.Some? && w.disk.Files(op).meta.value.state != Committed
    ensures op in w.origin
    ensures RollbackStep(w.disk, op, CALM.(readConfig := readable)).1 == Ok(RolledBack, false)
    ensures RollbackStep(w.disk, op, CALM.(readConfig := readable)).0.Live() == w.origin[op]
            <==> readable || w.origin[op] != [] || w.disk.Live() == w.origin[op]
  {
    ReachableIsSound(w, norm, op);
  }

  /** Commit is the point of no return exactly from the moment the backup is gone: a crash
      between saving the committed state and removing the backup leaves a committed
      transaction that rollback still undoes. */
  lemma CommittedUndoneIff(w: World, norm: Normalizer, op: OpId)
    requires Reachable(w, norm)
    requires w.disk.Files(op).meta.Some? && w.disk.Files(op).meta.value.state == Committed
    ensures op in w.origin
    ensures RollbackStep(w.disk, op, CALM).1 == Ok(RolledBack, false) <==> w.disk.Files(op).backup.Some?
    ensures w.disk.Files(op).backup.Some? ==> RollbackStep(w.disk, op, CALM).0.Live() == w.origin[op]
    ensures w.disk.Files(op).backup.None? ==> RollbackStep(w.disk, op, CALM) == (w.disk, Conflict)
  {
    ReachableIsSound(w, norm, op);
  }

  // ----- no lost update -----

  /** An activation that is not a repeat replaces exactly the bytes its own prepare read, with
      its own candidate; and an activation that fails leaves the live config as it was, or as
      the candidate, or as the bytes its prepare read. */
  lemma NoLostUpdate(w: World, norm: Normalizer, op: OpId, env: Env)
    requires Reachable(w, norm)
    ensures var (d, reply) := ActivateStep(w.disk, op, env);
            && (reply == Ok(Activated, false) ==>
                  op in w.origin && op in w.candidate
                  && w.disk.Live() == w.origin[op] && d.config == Some(w.candidate[op]))
            && (d.config != w.disk.config ==>
                  op in w.origin && op in w.candidate && w.disk.Live() == w.origin[op]
                  && (d.config == Some(w.candidate[op]) || d.config == Some(w.origin[op])))
  {
    ReachableIsSound(w, norm, op);
  }

  /** Of two operations prepared on the same bytes, the second cannot activate, and touches
      nothing, while the different config of the first is live. */
  lemma SecondActivateRefused(w: World, norm: Normalizer, first: OpId, second: OpId, env: Env)
    requires Reachable(w, norm)
    requires && first in w.candidate && first in w.origin && second in w.origin
             && w.origin[first] == w.origin[second]
             && w.disk.Live() == w.candidate[first] != w.origin[first]
             && w.disk.Files(second).meta.Some?
             && w.disk.Files(second).meta.value.state == Prepared
    ensures var (d, reply) := ActivateStep(w.disk, second, env);
            d == w.disk && (if env.readMeta then reply == Conflict || reply == IoError else reply == NotFound)
  {
    ReachableIsSound(w, norm, second);
  }

  /** From the prepared state, with nothing going wrong, activation succeeds exactly while the
      live config still reads as prepare read it. */
  lemma ActivateSucceedsIff(w: World, norm: Normalizer, op: OpId)
    requires Reachable(w, norm)
    requires w.disk.Files(op).meta.Some? && w.disk.Files(op).meta.value.state == Prepared
    ensures op in w.origin
    ensures ActivateStep(w.disk, op, CALM).1 == Ok(Activated, false) <==> w.disk.Live() == w.origin[op]
  {
    ReachableIsSound(w, norm, op);
  }

  /** Rollback has no such guard: it leaves the live config alone exactly while it reads as
      prepare read it, and replaces everything else, whoever wrote it. */
  lemma RollbackReplacesIff(w: World, norm: Normalizer, op: OpId)
    requires Reachable(w, norm)
    requires w.disk.Files(op).meta.Some? && w.disk.Files(op).meta.value.state != Committed
    ensures op in w.origin
    ensures RollbackStep(w.disk, op, CALM).0.config == w.disk.config <==> w.disk.Live() == w.origin[op]
  {
    ReachableIsSound(w, norm, op);
  }

  // ----- where repeating or aborting an action is not what the interface promises -----

  /** Repeating a prepare that succeeded is answered as a repeat exactly when normalising the
      submitted config changes nothing; otherwise the repeat is a conflict.  The stored hash is
      that of the normalised config, the compared one that of the submitted config. */
  lemma PrepareRepeatIff(d: Disk, op: OpId, submitted: Content, expected: Option<Digest>,
                         norm: Normalizer, env: Env, again: Env)
    requires PrepareStep(d, op, submitted, expected, norm, env).1 == Ok(Prepared, false)
    ensures var d1 := PrepareStep(d, op, submitted, expected, norm, env).0;
            var (d2, reply) := PrepareStep(d1, op, submitted, expected, norm, again);
            && (reply == Ok(Prepared, true) <==> again.readMeta && norm(submitted) == Some(submitted))
            && (again.readMeta ==> d2 == d1 && (reply != Ok(Prepared, true) ==> reply == Conflict))
  {}

  /** A crash of activate after the config write: the retry is refused exactly when the
      candidate differs from the bytes prepare read, and only rollback gets out. */
  lemma ActivateRetryAfterCrash(w: World, norm: Normalizer, op: OpId)
    requires Reachable(w, norm)
    requires w.disk.Files(op).meta.Some? && w.disk.Files(op).meta.value.state == Prepared
    requires op in w.origin && w.disk.Live() == w.origin[op]
    ensures var d1 := ActivateStep(w.disk, op, CALM.(saveMeta := Crashes)).0;
            && op in w.candidate
            && d1.Live() == w.candidate[op]
            && (ActivateStep(d1, op, CALM) == (d1, Conflict) <==> w.candidate[op] != w.origin[op])
            && RollbackStep(d1, op, CALM).0.Live() == w.origin[op]
  {
    ReachableIsSound(w, norm, op);
  }

  /** A prepare that cannot read the metadata of its operation takes it for a new one.  This
      prepare gets as far as writing the backup. */
  predicate WritesBackup(d: Disk, submitted: Content, expected: Option<Digest>, norm: Normalizer, env: Env) {
    && !Blank(submitted) && norm(submitted).Some? && env.testOk
    && (d.config.Some? ==> env.readConfig)
    && (expected.Some? ==> expected.value == Hash(d.Live()))
    && env.makeDir == Done && env.writeBackup == Done
  }

  lemma BlindPrepare(d: Disk, op: OpId, submitted: Content, expected: Option<Digest>, norm: Normalizer, env: Env)
    requires !env.readMeta && d.Files(op).meta.Some?
    ensures var d', t, t' := PrepareStep(d, op, submitted, expected, norm, env).0, d.Files(op),
                             PrepareStep(d, op, submitted, expected, norm, env).0.Files(op);
            && d'.config == d.config && t'.meta.Some?
            && (t'.meta == t.meta || (t'.meta.value.oldHash == Hash(d.Live()) && t'.backup == Some(d.Live())))
            && t'.backup == if WritesBackup(d, submitted, expected, norm, env) then Some(d.Live()) else t.backup
  {}

  /** It costs the operation its way back exactly when it gets there while the live config is
      not what the first prepare read. */
  lemma UnreadableMetaIff(w: World, norm: Normalizer, op: OpId, submitted: Content, expected: Option<Digest>, env: Env)
    requires Reachable(w, norm) && !env.readMeta
    requires w.disk.Files(op).meta.Some? && w.disk.Files(op).meta.value.state != Committed
    ensures op in w.origin
    ensures var d := PrepareStep(w.disk, op, submitted, expected, norm, env).0;
            RollbackStep(d, op, CALM).1 == Ok(RolledBack, false) && RollbackStep(d, op, CALM).0.Live() == w.origin[op]
            <==> !WritesBackup(w.disk, submitted, expected, norm, env) || w.disk.Live() == w.origin[op]
  {
    ReachableIsSound(w, norm, op);
    BlindPrepare(w.disk, op, submitted, expected, norm, env);
    hide PrepareStep, WritesBackup;
  }

  /** Abort leaves the live config alone and forgets the operation, whatever is live.  So after
      an accepted abort the bytes prepare read are live exactly if they were before, and no
      rollback can bring them back any more. */
  lemma AbortStrandsIff(w: World, norm: Normalizer, op: OpId)
    requires Reachable(w, norm)
    requires w.disk.Files(op).meta.Some?
    ensures op in w.origin
    ensures var (d, reply) := AbortStep(w.disk, op, CALM);
            && (reply == Aborted <==> w.disk.Files(op).meta.value.state != Activated)
            && (d.Live() == w.origin[op] <==> w.disk.Live() == w.origin[op])
            && (reply == Aborted ==> forall env :: RollbackStep(d, op, env) == (d, NotFound))
  {
    ReachableIsSound(w, norm, op);
  }

  /** Aborting in that window is accepted and strands the candidate: it stays live, and the
      operation that could have rolled it back is unknown afterwards. */
  lemma AbortAfterCrashStrands(config: Option<Content>, norm: Normalizer, op: OpId, submitted: Content)
    requires !Blank(submitted) && norm(submitted).Some? && norm(submitted) != Some(config.GetOr([]))
    ensures var w := Run(config,
                         [Event(Prepare(op, submitted, None), CALM),
                          Event(Activate(op), CALM.(saveMeta := Crashes)),
                          Event(Abort(op), CALM)], norm);
            && w.disk.config == norm(submitted)
            && w.disk.Live() != config.GetOr([])
            && forall env :: RollbackStep(w.disk, op, env) == (w.disk, NotFound)
  {
    var e0, e1, e2 := Event(Prepare(op, submitted, None), CALM),
                      Event(Activate(op), CALM.(saveMeta := Crashes)), Event(Abort(op), CALM);
    var events := [e0, e1, e2];
    assert events[..2] == [e0, e1] && [e0, e1][..1] == [e0] && [e0][..0] == [];
    var w0 := Run(config, [], norm);
    var w1 := Next(w0, e0, norm);
    assert Run(config, [e0], norm) == w1;
    assert w1.disk.Files(op) ==
           Txn(Some(Meta(Hash(config.GetOr([])), Hash(norm(submitted).value), Prepared)),
               norm(submitted), Some(config.GetOr([])));
    var w2 := Next(w1, e1, norm);
    assert Run(config, [e0, e1], norm) == w2;
    assert w2.disk == w1.disk.(config := norm(submitted));
    assert Run(config, events, norm) == Next(w2, e2, norm);
  }

  // ----- every answer, under every failure and crash -----

  /** Prepare succeeds exactly when there is no readable transaction, the submitted text is not
      blank and is accepted, the live config can be read and is the expected one, and all four
      writes are done; it leaves backup, candidate and metadata for those bytes. */
  lemma PrepareSucceedsIff(d: Disk, op: OpId, submitted: Content, expected: Option<Digest>, norm: Normalizer, env: Env)
    ensures PrepareStep(d, op, submitted, expected, norm, env).1 == Ok(Prepared, false) <==>
              && (!env.readMeta || d.Files(op).meta.None?)
              && (exists c | c in submitted :: c != ' ' && c != '\t' && c != '\n' && c != '\r' && c as int !in {11, 12})
              && norm(submitted).Some? && env.testOk
              && (d.config.None? || env.readConfig)
              && (expected.None? || expected.value.of == d.Live())
              && env.makeDir == Done && env.writeBackup == Done && env.writeStaged == Done && env.saveMeta == Done
    ensures PrepareStep(d, op, submitted, expected, norm, env).1 == Ok(Prepared, false) ==>
              PrepareStep(d, op, submitted, expected, norm, env).0.Files(op)
              == Txn(Some(Meta(Digest(d.Live()), Digest(norm(submitted).value), Prepared)),
                     norm(submitted), Some(d.Live()))
  {
    if !Blank(submitted) {
      var i :| 0 <= i < |submitted| && !IsSpace(submitted[i]);
      assert submitted[i] in submitted;
    }
  }

  /** For a known operation prepare writes nothing: it is a repeat exactly when the stored candidate
      is the submitted text and the operation is prepared or activated, and a conflict otherwise. */
  lemma PrepareKnown(d: Disk, op: OpId, submitted: Content, expected: Option<Digest>, norm: Normalizer, env: Env)
    requires env.readMeta && d.Files(op).meta.Some? && !Blank(submitted)
    ensures PrepareStep(d, op, submitted, expected, norm, env) == (
              d, if d.Files(op).meta.value.newHash.of == submitted
                    && d.Files(op).meta.value.state in {Prepared, Activated}
                 then Ok(d.Files(op).meta.value.state, true) else Conflict)
  {}

  /** Whatever the answer, prepare, commit and abort leave the live config alone, and a refusal
      leaves everything alone. */
  lemma RefusalsTouchNothing(d: Disk, e: Event, norm: Normalizer)
    ensures e.action.Prepare? || e.action.Commit? || e.action.Abort? ==> Act(d, e, norm).0.config == d.config
    ensures Act(d, e, norm).1 in {BadRequest, NotFound, Conflict} ==> Act(d, e, norm).0 == d
    ensures !e.action.Foreign? && !e.action.Prepare? && !e.env.readMeta ==> Act(d, e, norm) == (d, NotFound)
  {}

  /** An answer that names a state leaves the metadata in that state. */
  lemma StateSaved(d: Disk, e: Event, norm: Normalizer)
    requires !e.action.Foreign? && Act(d, e, norm).1.Ok?
    ensures Act(d, e, norm).0.Files(e.action.op).meta.Some?
    ensures Act(d, e, norm).0.Files(e.action.op).meta.value.state == Act(d, e, norm).1.state
  {}

  /** Activation succeeds exactly from the prepared state with everything readable, the live
      config as prepare read it, and the write, the restart and the saving done; and is a repeat
      exactly in the activated state. */
  lemma ActivateAnswers(w: World, norm: Normalizer, op: OpId, env: Env)
    requires Reachable(w, norm) && w.disk.Files(op).meta.Some?
    ensures op in w.origin && op in w.candidate
    ensures ActivateStep(w.disk, op, env).1 == Ok(Activated, false) <==>
              && env.readMeta && w.disk.Files(op).meta.value.state == Prepared
              && (w.disk.config.None? || env.readConfig) && w.disk.Live() == w.origin[op] && env.readStaged
              && env.writeConfig == Done && env.restart == Done && env.saveMeta == Done
    ensures ActivateStep(w.disk, op, env).1 == Ok(Activated, false) ==>
              ActivateStep(w.disk, op, env).0.Live() == w.candidate[op]
    ensures ActivateStep(w.disk, op, env).1 == Ok(Activated, true) <==>
              env.readMeta && w.disk.Files(op).meta.value.state == Activated
    ensures ActivateStep(w.disk, op, env).1 == Ok(Activated, true) ==> ActivateStep(w.disk, op, env).0 == w.disk
  {
    ReachableIsSound(w, norm, op);
  }

  /** The candidate was written and would not start.  The old bytes are live again exactly when
      the backup could be read and written back, or they are the candidate; the answer says that
      they are exactly when the second restart succeeded as well; and then the operation can be
      activated again. */
  lemma FailedRestart(w: World, norm: Normalizer, op: OpId, env: Env)
    requires Reachable(w, norm)
    requires w.disk.Files(op).meta.Some? && w.disk.Files(op).meta.value.state == Prepared
    requires op in w.origin && w.disk.Live() == w.origin[op]
    requires env.readMeta && (w.disk.config.None? || env.readConfig) && env.readStaged
    requires env.writeConfig == Done && env.restart == Fails
    ensures op in w.candidate
    ensures ActivateStep(w.disk, op, env).0.Live() == w.origin[op]
            <==> (env.readBackup && env.restoreConfig == Done) || w.candidate[op] == w.origin[op]
    ensures ActivateStep(w.disk, op, env).1 == ActivateFailed(true)
            <==> env.readBackup && env.restoreConfig == Done && env.restartAgain == Done && env.saveMeta != Crashes
    ensures ActivateStep(w.disk, op, env).1 == ActivateFailed(true) ==>
              ActivateStep(ActivateStep(w.disk, op, env).0, op, CALM).1 == Ok(Activated, false)
  {
    ReachableIsSound(w, norm, op);
    hide Inv, Sound;
  }

  /** Rollback succeeds exactly when metadata and backup can be read, the live config reads as
      the old one or is written back and restarted, and the state is saved. */
  lemma RollbackAnswers(w: World, norm: Normalizer, op: OpId, env: Env)
    requires Reachable(w, norm)
    requires w.disk.Files(op).meta.Some? && w.disk.Files(op).meta.value.state != Committed
    ensures op in w.origin
    ensures RollbackStep(w.disk, op, env).1 == Ok(RolledBack, false) <==>
              && env.readMeta && env.readBackup && env.saveMeta == Done
              && ((if env.readConfig then w.disk.Live() else []) == w.origin[op]
                  || (env.writeConfig == Done && env.restart == Done))
  {
    ReachableIsSound(w, norm, op);
  }

  /** Commit succeeds exactly for an activated or committed operation whose candidate is live, if
      the state is saved and nothing crashes; backup and candidate are gone then as far as they
      could be removed, and without its backup the operation cannot be rolled back. */
  lemma CommitAnswers(w: World, norm: Normalizer, op: OpId, env: Env)
    requires Reachable(w, norm) && w.disk.Files(op).meta.Some?
    ensures op in w.candidate
    ensures CommitStep(w.disk, op, env).1 == Ok(Committed, false) <==>
              && env.readMeta && w.disk.Files(op).meta.value.state in {Activated, Committed}
              && (if env.readConfig then w.disk.Live() else []) == w.candidate[op]
              && env.saveMeta == Done && env.removeBackup != Crashes && env.removeStaged != Crashes
    ensures CommitStep(w.disk, op, env).1 == Ok(Committed, false) ==>
              var t := CommitStep(w.disk, op, env).0.Files(op);
              && (env.removeBackup == Done ==> t.backup.None?)
              && (env.removeStaged == Done ==> t.staged.None?)
              && (t.backup.None? ==> RollbackStep(CommitStep(w.disk, op, env).0, op, CALM).1 == Conflict)
  {
    ReachableIsSound(w, norm, op);
  }

  /** Serving requests one after another leaves the disk that the run describes, so everything
      above is about the handler's files. */
  method Serve(norm: Normalizer, config: Option<Content>, events: seq<Event>) returns (h: Handler)
    ensures fresh(h) && h.norm == norm
    ensures h.Files() == Run(config, events, norm).disk
  {
    h := new Handler(norm, config);
    assert events[..0] == [];
    for i := 0 to |events|
      invariant fresh(h) && h.norm == norm
      invariant h.Files() == Run(config, events[..i], norm).disk
    {
      var env := events[i].env;
      assert events[..i + 1][..i] == events[..i];
      match events[i].action {
        case Prepare(op, submitted, expected) => var _ := h.Prepare(op, submitted, expected, env);
        case Activate(op) => var _ := h.Activate(op, env);
        case Rollback(op) => var _ := h.Rollback(op, env);
        case Commit(op) => var _ := h.Commit(op, env);
        case Abort(op) => var _ := h.Abort(op, env);
        case Foreign(other) => h.config := other;
      }
    }
    assert events[..|events|] == events;
  }
}
