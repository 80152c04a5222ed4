/**
 The checkpoint upgrader: loading the table of upgraders, and applying those that a checkpoint
 lacks in an order that respects their dependencies.
 */
module CheckpointUpgrader {

  datatype Tag = Tag(name: string)

  /** An upgrader (`up`) or a downgrader, the tags it depends on and the tags that depend on it. */
  datatype Upgrader = Upgrader(up: bool, depends: seq<Tag>, fwdDepends: seq<Tag>)

  type Table = map<Tag, Upgrader>

  /** `ready`: every dependency is a tag of the checkpoint. */
  predicate Ready(u: Upgrader, tags: set<Tag>) {
    forall i | 0 <= i < |u.depends| :: u.depends[i] in tags
  }

  function TagSet(table: Table): set<Tag> { set t | t in table && table[t].up }
  function UntagSet(table: Table): set<Tag> { set t | t in table && !table[t].up }

  /** The tags of upgraders the checkpoint lacks and of downgraders for tags it has. */
  function ToApply(table: Table, tags: set<Tag>): set<Tag> {
    (TagSet(table) - tags) + (UntagSet(table) * tags)
  }

  function ReadySet(table: Table, todo: set<Tag>, tags: set<Tag>): set<Tag>
    requires todo <= table.Keys
  {
    set t | t in todo && Ready(table[t], tags)
  }

  /** The checkpoint's tags after some migrations. */
  function Updated(table: Table, tags: set<Tag>, done: set<Tag>): set<Tag> {
    (tags + (done * TagSet(table))) - (done * UntagSet(table))
  }

  datatype Outcome = Done(tags: set<Tag>) | Aborted(left: set<Tag>, tags: set<Tag>)

  /** The rounds of `process_file`: all the migrations that are ready are applied together. */
  function Finish(table: Table, todo: set<Tag>, tags: set<Tag>): Outcome
    requires todo <= table.Keys
    decreases |todo|
  {
    var ready := ReadySet(table, todo, tags);
    if todo == {} then Done(tags)
    else if ready == {} then Aborted(todo, tags)
    else
      Shrinks(todo, ready);
      Finish(table, todo - ready, Updated(table, tags, ready))
  }

  lemma Shrinks(todo: set<Tag>, ready: set<Tag>)
    requires ready <= todo && ready != {}
    ensures |todo - ready| < |todo|
  {
    assert todo == (todo - ready) + ready;
    assert |(todo - ready) + ready| == |todo - ready| + |ready|;
  }

  // ------------------------------------------------------------------ the loop

  ghost predicate NoRepeats(s: seq<Tag>) {
    forall i, j | 0 <= i < j < |s| :: s[i] != s[j]
  }

  ghost function Elements(s: seq<Tag>): set<Tag> { set t | t in s }

  /** Every migration comes after those it depends on. */
  ghost predicate InOrder(table: Table, tags: set<Tag>, applied: seq<Tag>) {
    forall k | 0 <= k < |applied| :: applied[k] in table && Ready(table[applied[k]], tags + Elements(applied[..k]))
  }

  /** `update` for every tag of a round, in whatever order the set is traversed. */
  method ApplyRound(table: Table, ready: set<Tag>, tags0: set<Tag>) returns (tags: set<Tag>, applied: seq<Tag>)
    requires ready <= table.Keys
    ensures tags == Updated(table, tags0, ready)
    ensures NoRepeats(applied) && Elements(applied) == ready
  {
    tags, applied := tags0, [];
    var rest := ready;
    while rest != {}
      invariant rest <= ready && Elements(applied) == ready - rest && NoRepeats(applied)
      invariant tags == Updated(table, tags0, ready - rest)
      decreases |rest|
    {
      var tag :| tag in rest;
      UpdatedStep(table, tags0, ready - rest, tag);
      OneMore(applied, tag);
      assert ready - (rest - {tag}) == ready - rest + {tag};
      tags := if table[tag].up then tags + {tag} else tags - {tag};
      applied := applied + [tag];
      rest := rest - {tag};
    }
    assert ready - rest == ready;
  }

  lemma UpdatedStep(table: Table, tags: set<Tag>, done: set<Tag>, t: Tag)
    requires t in table && t !in done
    ensures Updated(table, tags, done + {t}) ==
      if table[t].up then Updated(table, tags, done) + {t} else Updated(table, tags, done) - {t}
  {
  }

  lemma OneMore(s: seq<Tag>, t: Tag)
    requires NoRepeats(s) && t !in Elements(s)
    ensures NoRepeats(s + [t]) && Elements(s + [t]) == Elements(s) + {t}
  {
    forall i, j | 0 <= i < j < |s + [t]| ensures (s + [t])[i] != (s + [t])[j] {
      assert s[i] in Elements(s);
    }
  }

  /** The loop of `process_file`: each migration that the checkpoint needs is applied at most once,
      and exactly once unless the loop aborts, and only when each tag it depends on is one that the
      checkpoint had or that an earlier migration was for. The tags are those of the checkpoint with
      the migrations applied. None of it depends on the order in which a round is traversed. */
  method Process(table: Table, tags0: set<Tag>) returns (ok: bool, tags: set<Tag>, applied: seq<Tag>)
    ensures ToApply(table, tags0) <= table.Keys
    ensures var r := Finish(table, ToApply(table, tags0), tags0); ok == r.Done? && tags == r.tags
    ensures NoRepeats(applied) && Elements(applied) <= ToApply(table, tags0)
    ensures ok ==> Elements(applied) == ToApply(table, tags0)
    ensures tags == Updated(table, tags0, Elements(applied)) && InOrder(table, tags0, applied)
    ensures UntagSet(table) == {} ==> tags == tags0 + Elements(applied)
    ensures ok ==> UpToDate(table, tags0, tags)
    ensures ok ==> forall t :: t in applied <==> t in table && (table[t].up <==> t !in tags0)
  {
    ghost var need := ToApply(table, tags0);
    var todo;
    ok, tags, applied, todo := Rounds(table, tags0);
    ProgressEnds(table, tags0, need, todo, tags, applied);
    if ok { EndsUpToDate(table, tags0, tags, applied); }
  }

  /** The checkpoint has the tag of every upgrader and of no downgrader; other tags stay as they were. */
  ghost predicate UpToDate(table: Table, tags0: set<Tag>, tags: set<Tag>) {
    forall t :: t in tags <==> if t in table then table[t].up else t in tags0
  }

  lemma EndsUpToDate(table: Table, tags0: set<Tag>, tags: set<Tag>, applied: seq<Tag>)
    requires Elements(applied) == ToApply(table, tags0) && tags == Updated(table, tags0, Elements(applied))
    ensures UpToDate(table, tags0, tags)
    ensures forall t :: t in applied <==> t in table && (table[t].up <==> t !in tags0)
  {
    forall t ensures t in applied <==> t in table && (table[t].up <==> t !in tags0) {
      assert t in applied <==> t in Elements(applied);
    }
  }

  method Rounds(table: Table, tags0: set<Tag>) returns (ok: bool, tags: set<Tag>, applied: seq<Tag>, toApply: set<Tag>)
    ensures ToApply(table, tags0) <= table.Keys
    ensures Progress(table, tags0, ToApply(table, tags0), toApply, tags, applied)
    ensures toApply <= table.Keys
    ensures (if ok then toApply == {} else toApply != {} && ReadySet(table, toApply, tags) == {})
  {
    ghost var need := ToApply(table, tags0);
    toApply := ToApply(table, tags0);
    tags, applied := tags0, [];
    UpdatedNone(table, tags0);
    while toApply != {}
      invariant need <= table.Keys && Progress(table, tags0, need, toApply, tags, applied)
      decreases |toApply|
    {
      var ready := ReadySet(table, toApply, tags);
      if ready == {} {
        return false, tags, applied, toApply;
      }
      var tags', round := ApplyRound(table, ready, tags);
      ProgressStep(table, tags0, need, toApply, tags, applied, ready, tags', round);
      tags, applied, toApply := tags', applied + round, toApply - ready;
    }
    ok := true;
  }

  lemma UpdatedNone(table: Table, tags: set<Tag>)
    ensures Updated(table, tags, {}) == tags
  {
  }

  lemma ProgressEnds(table: Table, tags0: set<Tag>, need: set<Tag>, todo: set<Tag>, tags: set<Tag>, applied: seq<Tag>)
    requires need <= table.Keys && Progress(table, tags0, need, todo, tags, applied)
    requires todo == {} || ReadySet(table, todo, tags) == {}
    ensures var r := Finish(table, need, tags0); r.Done? == (todo == {}) && r.tags == tags
    ensures Elements(applied) <= need && (todo == {} ==> Elements(applied) == need)
    ensures UntagSet(table) == {} ==> tags == tags0 + Elements(applied)
  {
    assert Elements(applied) == need - todo;
    UpdatedUp(table, tags0, Elements(applied));
  }

  /** Without downgraders the migrations only add tags. */
  lemma UpdatedUp(table: Table, tags: set<Tag>, done: set<Tag>)
    ensures UntagSet(table) == {} && done <= table.Keys ==> Updated(table, tags, done) == tags + done
  {
    forall t | t in done && t in table && UntagSet(table) == {} ensures t in TagSet(table) {
      assert t !in UntagSet(table);
    }
  }

  /** What the loop has done so far, and what is left to do. */
  ghost predicate Progress(table: Table, tags0: set<Tag>, need: set<Tag>, todo: set<Tag>, tags: set<Tag>,
                           applied: seq<Tag>)
    requires need <= table.Keys
  {
    && todo <= need && Finish(table, todo, tags) == Finish(table, need, tags0)
    && NoRepeats(applied) && Elements(applied) == need - todo
    && tags == Updated(table, tags0, Elements(applied)) && InOrder(table, tags0, applied)
  }

  lemma ProgressStep(table: Table, tags0: set<Tag>, need: set<Tag>, todo: set<Tag>, tags: set<Tag>, applied: seq<Tag>,
                     ready: set<Tag>, tags': set<Tag>, round: seq<Tag>)
    requires need <= table.Keys && Progress(table, tags0, need, todo, tags, applied) && ready != {}
    requires ready == ReadySet(table, todo, tags) && tags' == Updated(table, tags, ready)
    requires NoRepeats(round) && Elements(round) == ready
    ensures Progress(table, tags0, need, todo - ready, tags', applied + round) && |todo - ready| < |todo|
  {
    RoundInOrder(table, tags0, tags, applied, round, ready);
    AppendFacts(applied, round);
    UpdatedTwice(table, tags0, Elements(applied), ready);
    assert need - (todo - ready) == (need - todo) + ready;
    Shrinks(todo, ready);
  }

  lemma AppendFacts(a: seq<Tag>, b: seq<Tag>)
    requires NoRepeats(a) && NoRepeats(b) && Elements(a) !! Elements(b)
    ensures NoRepeats(a + b) && Elements(a + b) == Elements(a) + Elements(b)
  {
    forall i, j | 0 <= i < j < |a + b| ensures (a + b)[i] != (a + b)[j] {
      if i < |a| <= j { assert a[i] in Elements(a) && b[j - |a|] in Elements(b); }
    }
  }

  lemma UpdatedTwice(table: Table, tags: set<Tag>, a: set<Tag>, b: set<Tag>)
    requires a !! b
    ensures Updated(table, Updated(table, tags, a), b) == Updated(table, tags, a + b)
  {
  }

  lemma RoundInOrder(table: Table, tags0: set<Tag>, tags: set<Tag>, applied: seq<Tag>, round: seq<Tag>, ready: set<Tag>)
    requires tags == Updated(table, tags0, Elements(applied)) && InOrder(table, tags0, applied)
    requires Elements(round) == ready && ready <= table.Keys && forall t | t in ready :: Ready(table[t], tags)
    ensures InOrder(table, tags0, applied + round)
  {
    var all := applied + round;
    forall k | 0 <= k < |all| ensures all[k] in table && Ready(table[all[k]], tags0 + Elements(all[..k])) {
      if k < |applied| {
        assert all[..k] == applied[..k];
      } else {
        assert round[k - |applied|] in Elements(round);
        assert Elements(applied) <= Elements(all[..k]) by {
          forall t | t in applied ensures t in all[..k] {
            var i :| 0 <= i < |applied| && applied[i] == t;
            assert all[..k][i] == t;
          }
        }
      }
    }
  }

  // ------------------------------------------------------------------ when the loop completes

  /** Migrations none of which can be the first: each depends on another of them, or on a tag that
      the checkpoint neither has nor will get. */
  ghost predicate Stuck(table: Table, s: set<Tag>, todo: set<Tag>, tags: set<Tag>) {
    && s != {} && s <= todo <= table.Keys
    && forall t | t in s :: exists i | 0 <= i < |table[t].depends| ::
      table[t].depends[i] in s || (table[t].depends[i] !in tags && table[t].depends[i] !in todo)
  }

  /** Without downgraders, the loop completes exactly when nothing is stuck, and then the tags are
      the checkpoint's own and those of every upgrader. */
  lemma CompletesIff(table: Table, tags: set<Tag>)
    requires UntagSet(table) == {}
    ensures ToApply(table, tags) <= table.Keys
    ensures var r := Finish(table, ToApply(table, tags), tags);
      && (r.Done? <==> !exists s :: Stuck(table, s, ToApply(table, tags), tags))
      && (r.Done? ==> r.tags == tags + TagSet(table))
  {
    var todo := ToApply(table, tags);
    assert todo <= TagSet(table);
    FinishFacts(table, todo, tags);
    if s :| Stuck(table, s, todo, tags) { StuckAborts(table, s, todo, tags); }
  }

  lemma ReadyAreUp(table: Table, todo: set<Tag>, tags: set<Tag>)
    requires UntagSet(table) == {} && todo <= TagSet(table)
    ensures Updated(table, tags, ReadySet(table, todo, tags)) == tags + ReadySet(table, todo, tags)
  {
  }

  lemma {:induction false} FinishFacts(table: Table, todo: set<Tag>, tags: set<Tag>)
    requires UntagSet(table) == {} && todo <= TagSet(table)
    ensures var r := Finish(table, todo, tags);
      && (r.Done? ==> r.tags == tags + todo)
      && (r.Aborted? ==> r.tags == tags + (todo - r.left) && Stuck(table, r.left, todo, tags))
    decreases |todo|
  {
    var ready := ReadySet(table, todo, tags);
    if todo != {} && ready != {} {
      ReadyAreUp(table, todo, tags);
      Shrinks(todo, ready);
      FinishFacts(table, todo - ready, tags + ready);
      var r := Finish(table, todo - ready, tags + ready);
      if r.Aborted? { StuckBefore(table, r.left, todo, tags, ready); }
      Regroup(tags, todo, ready, if r.Aborted? then r.left else {});
    } else if todo != {} {
      NoneReady(table, todo, tags);
    }
  }

  lemma NoneReady(table: Table, todo: set<Tag>, tags: set<Tag>)
    requires todo <= table.Keys && todo != {} && ReadySet(table, todo, tags) == {}
    ensures Stuck(table, todo, todo, tags)
  {
    forall t | t in todo ensures exists i | 0 <= i < |table[t].depends| ::
      table[t].depends[i] in todo || (table[t].depends[i] !in tags && table[t].depends[i] !in todo)
    {
      assert t !in ReadySet(table, todo, tags);
      var i :| 0 <= i < |table[t].depends| && table[t].depends[i] !in tags;
    }
  }

  lemma Regroup(tags: set<Tag>, todo: set<Tag>, ready: set<Tag>, left: set<Tag>)
    requires ready <= todo && left <= todo - ready
    ensures tags + ready + (todo - ready - left) == tags + (todo - left)
    ensures tags + ready + (todo - ready) == tags + todo
  {
  }

  lemma StuckBefore(table: Table, s: set<Tag>, todo: set<Tag>, tags: set<Tag>, ready: set<Tag>)
    requires ready <= todo <= table.Keys && Stuck(table, s, todo - ready, tags + ready)
    ensures Stuck(table, s, todo, tags)
  {
    forall t | t in s ensures exists i | 0 <= i < |table[t].depends| ::
      table[t].depends[i] in s || (table[t].depends[i] !in tags && table[t].depends[i] !in todo)
    {
      var i :| 0 <= i < |table[t].depends|
        && (table[t].depends[i] in s || (table[t].depends[i] !in tags + ready && table[t].depends[i] !in todo - ready));
    }
  }

  lemma {:induction false} StuckAborts(table: Table, s: set<Tag>, todo: set<Tag>, tags: set<Tag>)
    requires UntagSet(table) == {} && todo <= TagSet(table) && Stuck(table, s, todo, tags) && s !! tags
    ensures Finish(table, todo, tags).Aborted?
    decreases |todo|
  {
    var ready := ReadySet(table, todo, tags);
    if ready != {} {
      ReadyAreUp(table, todo, tags);
      Shrinks(todo, ready);
      forall t | t in s ensures t !in ready {
        var i :| 0 <= i < |table[t].depends|
          && (table[t].depends[i] in s || (table[t].depends[i] !in tags && table[t].depends[i] !in todo));
      }
      StuckAborts(table, s, todo - ready, tags + ready);
    }
  }

  // ------------------------------------------------------------------ acyclic tables

  /** Every dependency is a tag of the table, as `load_all` makes sure. */
  ghost predicate Audited(table: Table) {
    forall t | t in table :: forall i | 0 <= i < |table[t].depends| :: table[t].depends[i] in table
  }

  /** Dependencies go from higher to lower levels. */
  ghost predicate Leveled(table: Table, level: Tag -> nat) {
    forall t | t in table :: forall i | 0 <= i < |table[t].depends| :: level(table[t].depends[i]) < level(t)
  }

  /** A table of upgraders brings every checkpoint up to date exactly when its dependencies have no
      cycle. */
  lemma AcyclicIff(table: Table)
    requires UntagSet(table) == {} && Audited(table)
    ensures (forall tags: set<Tag> ::
      ToApply(table, tags) <= table.Keys && Finish(table, ToApply(table, tags), tags).Done?)
      <==> exists level: Tag -> nat :: Leveled(table, level)
  {
    if level: Tag -> nat :| Leveled(table, level) {
      forall tags: set<Tag>
        ensures ToApply(table, tags) <= table.Keys && Finish(table, ToApply(table, tags), tags).Done?
      {
        AcyclicCompletes(table, tags, level);
      }
    }
    if forall tags: set<Tag> :: ToApply(table, tags) <= table.Keys && Finish(table, ToApply(table, tags), tags).Done? {
      assert Finish(table, ToApply(table, {}), {}).Done?;
      var todo := ToApply(table, {});
      assert table.Keys <= todo by {
        forall t | t in table ensures t in todo { assert t !in UntagSet(table); }
      }
      var level := (t: Tag) => RoundOf(table, todo, {}, t);
      forall t, i | t in table && 0 <= i < |table[t].depends| ensures level(table[t].depends[i]) < level(t) {
        RoundsIncrease(table, todo, {}, t, i);
      }
      assert Leveled(table, level);
    }
  }

  lemma AcyclicCompletes(table: Table, tags: set<Tag>, level: Tag -> nat)
    requires UntagSet(table) == {} && Audited(table) && Leveled(table, level)
    ensures ToApply(table, tags) <= table.Keys
    ensures Finish(table, ToApply(table, tags), tags) == Done(tags + TagSet(table))
  {
    var todo := ToApply(table, tags);
    CompletesIff(table, tags);
    if s :| Stuck(table, s, todo, tags) {
      var t := Lowest(s, level);
      var i :| 0 <= i < |table[t].depends|
        && (table[t].depends[i] in s || (table[t].depends[i] !in tags && table[t].depends[i] !in todo));
      var d := table[t].depends[i];
      assert d in table && level(d) < level(t) by { assert table[t].depends[i] in table; }
      if d !in s { UpOrDown(table, d); }
    }
  }

  lemma UpOrDown(table: Table, t: Tag)
    requires t in table && UntagSet(table) == {}
    ensures t in TagSet(table)
  {
    assert t !in UntagSet(table);
  }

  lemma {:induction false} Lowest(s: set<Tag>, level: Tag -> nat) returns (t: Tag)
    requires s != {}
    ensures t in s && forall x | x in s :: level(t) <= level(x)
    decreases |s|
  {
    t :| t in s;
    if s != {t} {
      var u := Lowest(s - {t}, level);
      if level(u) < level(t) { t := u; }
    }
  }

  /** The round in which a tag is applied; 0 for the tags the checkpoint has. */
  ghost function RoundOf(table: Table, todo: set<Tag>, tags: set<Tag>, t: Tag): nat
    decreases |todo|
  {
    if t in tags || !(todo <= table.Keys) then 0
    else
      var ready := ReadySet(table, todo, tags);
      if t in ready || ready == {} then 1
      else
        Shrinks(todo, ready);
        1 + RoundOf(table, todo - ready, Updated(table, tags, ready), t)
  }

  lemma {:induction false} RoundsIncrease(table: Table, todo: set<Tag>, tags: set<Tag>, t: Tag, i: nat)
    requires UntagSet(table) == {} && todo <= TagSet(table) && t in todo && t !in tags && i < |table[t].depends|
    requires Finish(table, todo, tags).Done?
    ensures RoundOf(table, todo, tags, table[t].depends[i]) < RoundOf(table, todo, tags, t)
    decreases |todo|
  {
    var ready := ReadySet(table, todo, tags);
    if t !in ready {
      Shrinks(todo, ready);
      ReadyAreUp(table, todo, tags);
      RoundsIncrease(table, todo - ready, tags + ready, t, i);
    }
  }

  // ------------------------------------------------------------------ loading the table

  /** Two tables with the same tags that differ in dependencies only. */
  ghost predicate SameShape(a: Table, b: Table) {
    a.Keys == b.Keys && forall t | t in a :: a[t].up == b[t].up && a[t].fwdDepends == b[t].fwdDepends
  }

  ghost function Deps(table: Table, t: Tag): set<Tag>
    requires t in table
  {
    Elements(table[t].depends)
  }

  /** The tags that an upgrader names, in either direction, are tags of the table. */
  ghost predicate Known(table: Table, t: Tag)
    requires t in table
  {
    Deps(table, t) <= table.Keys && Elements(table[t].fwdDepends) <= table.Keys
  }

  /** The upgraders among `from` that make `t` depend on them. */
  ghost function Forward(table: Table, from: set<Tag>, t: Tag): set<Tag> {
    set u | u in from && u in table && t in Elements(table[u].fwdDepends)
  }

  /** Adds a dependency on `tag` to each tag it names forward, up to one that does not exist. */
  method LinkForward(table0: Table, tag: Tag) returns (ok: bool, table: Table)
    requires tag in table0
    ensures SameShape(table0, table)
    ensures ok <==> Elements(table0[tag].fwdDepends) <= table0.Keys
    ensures ok ==> forall t | t in table :: Deps(table, t) == Deps(table0, t) + Forward(table0, {tag}, t)
  {
    var fds := table0[tag].fwdDepends;
    table := table0;
    var i := 0;
    while i < |fds|
      invariant i <= |fds| && SameShape(table0, table) && Elements(fds[..i]) <= table0.Keys
      invariant forall t | t in table ::
        Deps(table, t) == Deps(table0, t) + if t in Elements(fds[..i]) then {tag} else {}
    {
      var fd := fds[i];
      ElementsNext(fds, i);
      if fd !in table {
        assert fd in Elements(fds);
        return false, table;
      }
      ElementsAppend(table[fd].depends, tag);
      table := table[fd := table[fd].(depends := table[fd].depends + [tag])];
      i := i + 1;
    }
    assert fds[..i] == fds;
    ok := true;
  }

  lemma ElementsNext(s: seq<Tag>, i: nat)
    requires i < |s|
    ensures Elements(s[..i + 1]) == Elements(s[..i]) + {s[i]}
  {
    assert s[..i + 1] == s[..i] + [s[i]];
    ElementsAppend(s[..i], s[i]);
  }

  lemma ElementsAppend(s: seq<Tag>, t: Tag)
    ensures Elements(s + [t]) == Elements(s) + {t}
  {
    forall x | x in s + [t] ensures x in Elements(s) + {t} {
    }
    assert (s + [t])[|s|] == t;
  }

  /** Whether all the dependencies of a tag exist. */
  method Audit(table: Table, tag: Tag) returns (ok: bool)
    requires tag in table
    ensures ok <==> Deps(table, tag) <= table.Keys
  {
    var ds := table[tag].depends;
    var i := 0;
    while i < |ds|
      invariant i <= |ds| && Elements(ds[..i]) <= table.Keys
    {
      ElementsNext(ds, i);
      if ds[i] !in table {
        assert ds[i] in Elements(ds);
        return false;
      }
      i := i + 1;
    }
    assert ds[..i] == ds;
    ok := true;
  }

  /** The last loop of `load_all`, over the items of the table in any order: it succeeds exactly when
      every tag that is named exists; the dependencies are then those declared on either side. */
  method Resolve(table0: Table, items: seq<Tag>) returns (ok: bool, table: Table)
    requires Elements(items) == table0.Keys
    ensures ok <==> forall t | t in table0 :: Known(table0, t)
    ensures ok ==> SameShape(table0, table) && Audited(table)
    ensures ok ==> forall t | t in table :: Deps(table, t) == Deps(table0, t) + Forward(table0, table0.Keys, t)
  {
    table := table0;
    var i := 0;
    while i < |items|
      invariant i <= |items| && ResolvedBy(table0, Elements(items[..i]), table)
    {
      ElementsNext(items, i);
      assert items[i] in Elements(items);
      var good, linked := LinkForward(table, items[i]);
      if !good {
        assert !Known(table0, items[i]);
        return false, table;
      }
      var known := Audit(linked, items[i]);
      LinkFacts(table0, Elements(items[..i]), table, items[i], linked);
      if !known {
        return false, table;
      }
      table := linked;
      i := i + 1;
    }
    assert items[..i] == items;
    AuditedFacts(table0, table);
    ok := true;
  }

  /** The items `done` are resolved and audited. */
  ghost predicate ResolvedBy(table0: Table, done: set<Tag>, table: Table) {
    && SameShape(table0, table) && done <= table0.Keys
    && (forall t | t in table :: Deps(table, t) == Deps(table0, t) + Forward(table0, done, t))
    && (forall t | t in done :: Known(table0, t))
  }

  lemma LinkFacts(table0: Table, done: set<Tag>, table: Table, tag: Tag, linked: Table)
    requires ResolvedBy(table0, done, table) && tag in table0 && SameShape(table, linked)
    requires Elements(table0[tag].fwdDepends) <= table0.Keys
    requires forall t | t in linked :: Deps(linked, t) == Deps(table, t) + Forward(table, {tag}, t)
    ensures Deps(linked, tag) <= table0.Keys <==> Known(table0, tag)
    ensures Known(table0, tag) ==> ResolvedBy(table0, done + {tag}, linked)
  {
    forall t | t in linked ensures Deps(linked, t) == Deps(table0, t) + Forward(table0, done + {tag}, t) {
      ForwardStep(table0, table, done, tag, t);
    }
    ForwardKnown(table0, done + {tag}, tag);
  }

  lemma ForwardStep(table0: Table, table: Table, done: set<Tag>, tag: Tag, t: Tag)
    requires SameShape(table0, table)
    ensures Forward(table0, done + {tag}, t) == Forward(table0, done, t) + Forward(table, {tag}, t)
  {
  }

  lemma ForwardKnown(table: Table, from: set<Tag>, t: Tag)
    ensures Forward(table, from, t) <= table.Keys
  {
  }

  lemma AuditedFacts(table0: Table, table: Table)
    requires ResolvedBy(table0, table0.Keys, table)
    ensures Audited(table)
  {
    forall t | t in table ensures forall i | 0 <= i < |table[t].depends| :: table[t].depends[i] in table {
      assert Known(table0, t);
      assert Forward(table0, table0.Keys, t) <= table0.Keys;
      assert Deps(table, t) <= table.Keys;
      forall i | 0 <= i < |table[t].depends| ensures table[t].depends[i] in table {
        assert table[t].depends[i] in Elements(table[t].depends);
      }
    }
  }

  // ------------------------------------------------------------------ legacy versions

  /** The legacy versions from 2 up to `i`, excluding it, all exist. */
  ghost predicate Gapless(table: Table, legacy: map<nat, Tag>, i: nat) {
    3 <= i && forall u | 2 <= u < i :: u in legacy && legacy[u] in table
  }

  /** The table with each version from 3 up to `i` depending on its predecessor alone. */
  ghost function Chained(table: Table, legacy: map<nat, Tag>, i: nat): (r: Table)
    requires i == 3 || Gapless(table, legacy, i)
    ensures SameShape(table, r)
    decreases i
  {
    if i <= 3 then table
    else
      var r := Chained(table, legacy, i - 1);
      r[legacy[i - 1] := r[legacy[i - 1]].(depends := [legacy[i - 2]])]
  }

  ghost predicate Injective(legacy: map<nat, Tag>) {
    forall i, j | i in legacy && j in legacy && i != j :: legacy[i] != legacy[j]
  }

  /** Exactly the versions of the chain lose their declared dependencies for their predecessor. */
  lemma {:induction false} ChainedAt(table: Table, legacy: map<nat, Tag>, i: nat, t: Tag)
    requires Gapless(table, legacy, i) && Injective(legacy) && t in table
    ensures forall v | 3 <= v < i && legacy[v] == t :: Chained(table, legacy, i)[t].depends == [legacy[Before(v)]]
    ensures (forall v | 3 <= v < i :: legacy[v] != t) ==> Chained(table, legacy, i)[t] == table[t]
    decreases i
  {
    if i > 3 { ChainedAt(table, legacy, i - 1, t); }
  }

  function Before(v: nat): nat { if v > 0 then v - 1 else 0 }

  /** The chain of legacy versions in `load_all`: links the versions from 3 up to the first gap;
      fails when version 3 has no predecessor. */
  method LinkLegacy(table0: Table, legacy: map<nat, Tag>) returns (ok: bool, table: Table, i: nat)
    requires legacy.Values <= table0.Keys
    ensures ok <==> (3 in legacy ==> 2 in legacy)
    ensures ok ==> i !in legacy && (i == 3 || Gapless(table0, legacy, i)) && table == Chained(table0, legacy, i)
  {
    table, i := table0, 3;
    if 3 in legacy && 2 !in legacy { return false, table, i; }
    while i in legacy
      invariant LinkedUpTo(table0, legacy, table, i) && (3 in legacy ==> 2 in legacy)
      decreases |Above(legacy, i)|
    {
      AboveShrinks(legacy, i);
      LinkStep(table0, legacy, table, i);
      table := table[legacy[i] := table[legacy[i]].(depends := [legacy[i - 1]])];
      i := i + 1;
    }
    ok := true;
  }

  ghost function Above(legacy: map<nat, Tag>, i: nat): set<nat> {
    set u | u in legacy && i <= u
  }

  lemma AboveShrinks(legacy: map<nat, Tag>, i: nat)
    requires i in legacy
    ensures |Above(legacy, i + 1)| < |Above(legacy, i)|
  {
    assert Above(legacy, i) == Above(legacy, i + 1) + {i};
  }

  ghost predicate LinkedUpTo(table0: Table, legacy: map<nat, Tag>, table: Table, i: nat) {
    3 <= i && (i == 3 || Gapless(table0, legacy, i)) && table == Chained(table0, legacy, i)
  }

  lemma LinkStep(table0: Table, legacy: map<nat, Tag>, table: Table, i: nat)
    requires legacy.Values <= table0.Keys && LinkedUpTo(table0, legacy, table, i)
    requires i in legacy && (3 in legacy ==> 2 in legacy)
    ensures legacy[i] in table && i - 1 in legacy
    ensures LinkedUpTo(table0, legacy, table[legacy[i] := table[legacy[i]].(depends := [legacy[i - 1]])], i + 1)
  {
    assert legacy[i] in legacy.Values;
    if i == 3 { assert legacy[2] in legacy.Values; }
    assert Gapless(table0, legacy, i + 1);
  }
}
