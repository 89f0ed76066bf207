/**
 The first local write to a key after a restart. Replay applies the logged versions but does not
 raise the version counter, so the new version can fall below the recovered one.
 */
module AfterRestart {
  import opened Bytes
  import opened Lww
  import opened Records
  import opened Recovery
  import opened Durable

  /** The version that a restarted store gives its first local write. */
  function FirstVersion(d: Disk, now: nat, later: nat): nat
    requires Recover(d, now).Ok?
  {
    Lww.NextVersion(Recover(d, now).value.lastVersion, later)
  }

  /** That write, of `value` to `k`, is stored. */
  ghost predicate Accepted(d: Disk, k: Key, value: Value, now: nat, later: nat)
    requires Recover(d, now).Ok?
  {
    Lookup(SetIn(Recover(d, now).value, k, value, 0, 0, later).entries, k) ==
    Some(Entry(value, FirstVersion(d, now, later), 0))
  }

  /** The recovered version of `k` is within reach of the clock, or of the counter, which only knows the snapshot. */
  ghost predicate Reachable(m: Entries, snap: Entries, k: Key, later: nat)
  {
    k in m ==>
      || m[k].version <= later
      || m[k].version <= 1
      || exists x :: x in snap && m[k].version <= snap[x].version + 1
  }

  lemma CounterBounds(snap: Entries, last: nat, v: nat)
    requires CounterIsMax(Memory(snap, last))
    ensures v <= last + 1 <==> v <= 1 || exists x :: x in snap && v <= snap[x].version + 1
  {
    if v <= last + 1 && last != 0 {
      var x :| x in snap && snap[x].version == last;
    }
  }

  /**
   In every run, start-up at `now` and a local Set of `k` at `later`: it is stored if and only if the
   recovered version of the key is at most the clock, at most 1, or at most one above a version in the snapshot.
   Otherwise it is logged and silently dropped.
   */
  lemma FirstWriteAcceptedIff(es: seq<Event>, k: Key, value: Value, now: nat, later: nat)
    ensures Recover(Run(es).disk, now).Ok?
    ensures Accepted(Run(es).disk, k, value, now, later) <==>
            Reachable(Recover(Run(es).disk, now).value.entries, Run(es).snap, k, later)
  {
    hide Run, OnDisk, Recover, ApplyAll, LiveOps, CounterIsMax;
    RunOnDisk(es);
    RecoverOnDisk(Run(es), now);
    var m := Recover(Run(es).disk, now).value;
    if k in m.entries {
      CounterBounds(Run(es).snap, m.lastVersion, m.entries[k].version);
    }
  }

  const K: Key := [107]
  const FIRST := Lww.Set(K, [97], 5, 0)
  const SECOND := Lww.Set(K, [98], 6, 0)

  /** One Set that mints its version. */
  lemma MintK(es: seq<Event>, value: Value) returns (fs: seq<Event>)
    requires |value| == 1 && Run(es).phase.Idle? && Run(es).clock < 100 && Run(es).mem.lastVersion < 100
    ensures var s, v := Run(es), Lww.NextVersion(Run(es).mem.lastVersion, Run(es).clock);
            && Run(fs).log == s.log + [Lww.Set(K, value, v, 0)] && Run(fs).mem.lastVersion == v
            && Run(fs).snap == s.snap && Run(fs).clock == s.clock && Run(fs).phase.Idle?
  {
    hide Run, Encode, Apply;
    fs := es + [LogSet(K, value, 0, 0)];
    RunSnoc(es, LogSet(K, value, 0, 0));
    RunSnoc(fs, ApplyLogged);
    fs := fs + [ApplyLogged];
  }

  lemma BothReplayed()
    ensures ApplyAll(map[], LiveOps([FIRST, SECOND], 5)) == map[K := Entry([98], 6, 0)]
  {
    assert [FIRST, SECOND][..1] == [FIRST];
    assert [FIRST][..0] == [];
    assert LiveOps([FIRST], 5) == [] + [FIRST];
    assert LiveOps([FIRST, SECOND], 5) == [FIRST] + [SECOND];
    assert ApplyAll(map[], [FIRST]) == Apply(map[], FIRST);
    assert ApplyAll(map[], [FIRST, SECOND]) == Apply(map[K := Entry([97], 5, 0)], SECOND);
  }

  lemma BothLogged() returns (es: seq<Event>)
    ensures Run(es).log == [FIRST, SECOND] && Run(es).snap == map[]
  {
    assert Run([]) == INITIAL;
    hide Run;
    es := [] + [Tick(5)];
    RunSnoc([], Tick(5));
    es := MintK(es, [97]);
    es := MintK(es, [98]);
    assert Run(es).log == [] + [FIRST] + [SECOND];
  }

  /** Two Sets of one key at one clock, a restart, and a third Set at that clock: it is dropped. */
  lemma ThirdWriteDropped(value: Value) returns (es: seq<Event>)
    ensures Recover(Run(es).disk, 5).Ok? && !Accepted(Run(es).disk, K, value, 5, 5)
  {
    hide Run, OnDisk, Recover, ApplyAll, LiveOps, Accepted;
    es := BothLogged();
    RunOnDisk(es);
    RecoverOnDisk(Run(es), 5);
    BothReplayed();
    FirstWriteAcceptedIff(es, K, value, 5, 5);
  }
}
