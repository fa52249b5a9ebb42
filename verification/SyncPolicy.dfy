/**
  The in-memory view of a table, kept in step with it by the events of the table: rows
  added, rows updated, rows removed. A row stays in memory while it passes the filter.
*/
module SyncPolicy {
  import opened Registry
  import opened Wrappers

  // Whether a call into the code of the object throws is a parameter.
  datatype Call = Returns | Throws

  // A row as the database gives it, what the filter says of it, and how the calls it causes end.
  datatype Row = Row(key: int, record: Record, isLoaded: bool, check: Call, unlink: Call, load: Call)

  // A deletion; a call to Unlink that throws leaves its object linked or not.
  datatype Removal = Removal(key: int, unlink: Call, linkedAfter: bool)

  datatype Event = Put(row: Row) | Drop(removal: Removal)

  type View = map<int, Entry>

  // ----- What an event makes of the view -----

  predicate Accepted(row: Row, present: bool) {
    && row.key != 0 && row.check.Returns? && row.isLoaded && row.load.Returns?
    && (present ==> row.unlink.Returns?)
  }

  function Apply(v: View, e: Event): View {
    match e
    case Put(row) =>
      if Accepted(row, row.key in v) then v[row.key := Entry(Some(row.record), true)] else v - {row.key}
    case Drop(r) =>
      if r.key in v && r.unlink.Throws? then v[r.key := v[r.key].(linked := r.linkedAfter)] else v - {r.key}
  }

  function ApplyAll(v: View, events: seq<Event>): View {
    if events == [] then v else Apply(ApplyAll(v, events[..|events| - 1]), events[|events| - 1])
  }

  // The key is loaded before and after each of the events.
  predicate StaysLoaded(v: View, events: seq<Event>, key: int) {
    forall i | 0 <= i <= |events| :: key in ApplyAll(v, events[..i])
  }

  function Puts(rows: seq<Row>): (r: seq<Event>)
    ensures |r| == |rows|
  {
    seq(|rows|, i requires 0 <= i < |rows| => Put(rows[i]))
  }

  function Drops(removals: seq<Removal>): (r: seq<Event>)
    ensures |r| == |removals|
  {
    seq(|removals|, i requires 0 <= i < |removals| => Drop(removals[i]))
  }

  // ----- The calls into the object -----

  method Load(item: Registrable, row: Row) returns (ok: bool)
    requires !item.linked
    modifies item
    ensures ok == row.load.Returns?
    ensures ok ==> item.content == Some(row.record) && item.linked
  {
    item.content, item.linked := Some(row.record), true;
    ok := row.load.Returns?;
  }

  method Unlink(item: Registrable, call: Call, linkedAfter: bool) returns (ok: bool)
    modifies item`linked
    ensures ok == call.Returns? && item.linked == (!ok && linkedAfter)
  {
    ok := call.Returns?;
    item.linked := !ok && linkedAfter;
  }

  // ----- The policy -----

  class Policy {
    const registry: Registry

    constructor ()
      ensures fresh(registry) && registry.Valid() && registry.objects == map[]
    {
      registry := new Registry();
    }

    // The keys registered before and now have the same object, the other objects are new.
    twostate predicate SameObjects()
      reads registry
    {
      forall k <- registry.objects ::
        if k in old(registry.objects) then registry.objects[k] == old(registry.objects)[k] else fresh(registry.objects[k])
    }

    twostate predicate KeptOrNew()
      reads registry
    {
      forall o <- registry.Items() :: o in old(registry.Items()) || fresh(o)
    }

    twostate lemma ItemsKept()
      requires SameObjects()
      ensures KeptOrNew()
    {
      forall o <- registry.Items() ensures o in old(registry.Items()) || fresh(o) {
        var k :| k in registry.objects && registry.objects[k] == o;
        assert k in old(registry.objects) ==> o in old(registry.Items());
      }
    }

    // The try block of RowsAdded: the filter is asked before the object is unlinked.
    method TryAdd(row: Row) returns (ok: bool)
      requires registry.Valid()
      modifies registry, registry.Items()
      ensures registry.Valid() && SameObjects()
      ensures ok ==> registry.View() == Apply(old(registry.View()), Put(row))
      ensures !ok ==> registry.View() - {row.key} == old(registry.View()) - {row.key}
      ensures !ok ==> !Accepted(row, row.key in old(registry.objects))
    {
      if registry.Contains(row.key) {
        var item := registry.GetEditable(row.key);
        assert forall k <- registry.objects :: k != row.key ==> registry.objects[k] != item.value;
        if row.check.Throws? { return false; }
        var isLoaded := row.isLoaded;
        var unlinked := Unlink(item.value, row.unlink, false);
        if !unlinked { return false; }
        if isLoaded {
          ok := Load(item.value, row);
        } else {
          var error := registry.Remove(row.key);
          ok := error.None?;
        }
      } else {
        if row.check.Throws? { return false; }
        ok := true;
        if row.isLoaded {
          var item := new Registrable(row.key);
          var error := registry.Add(item);
          if error.Some? { return false; }
          ok := Load(item, row);
        }
      }
    }

    // The try block of RowsUpdated: the object is unlinked before the filter is asked.
    method TryUpdate(row: Row) returns (ok: bool)
      requires registry.Valid()
      modifies registry, registry.Items()
      ensures registry.Valid() && SameObjects()
      ensures ok ==> registry.View() == Apply(old(registry.View()), Put(row))
      ensures !ok ==> registry.View() - {row.key} == old(registry.View()) - {row.key}
      ensures !ok ==> !Accepted(row, row.key in old(registry.objects))
    {
      if registry.Contains(row.key) {
        var item := registry.GetEditable(row.key);
        assert forall k <- registry.objects :: k != row.key ==> registry.objects[k] != item.value;
        var unlinked := Unlink(item.value, row.unlink, false);
        if !unlinked || row.check.Throws? { return false; }
        if row.isLoaded {
          ok := Load(item.value, row);
        } else {
          var error := registry.Remove(row.key);
          ok := error.None?;
        }
      } else {
        if row.check.Throws? { return false; }
        ok := true;
        if row.isLoaded {
          var item := new Registrable(row.key);
          var error := registry.Add(item);
          if error.Some? { return false; }
          ok := Load(item, row);
        }
      }
    }

    // One turn of the loop of RowsAdded or of RowsUpdated: what fails is not loaded.
    method PutRow(row: Row, update: bool)
      requires registry.Valid()
      modifies registry, registry.Items()
      ensures registry.Valid() && SameObjects() && KeptOrNew()
      ensures registry.View() == Apply(old(registry.View()), Put(row))
    {
      var ok;
      if update { ok := TryUpdate(row); } else { ok := TryAdd(row); }
      if !ok && registry.Contains(row.key) {
        var error := registry.Remove(row.key);
      }
      ItemsKept();
    }

    // One turn of the loop of RowsRemoved.
    method DropRow(removal: Removal)
      requires registry.Valid()
      modifies registry, registry.Items()
      ensures registry.Valid() && SameObjects() && KeptOrNew()
      ensures registry.View() == Apply(old(registry.View()), Drop(removal))
    {
      if registry.Contains(removal.key) {
        var item := registry.GetEditable(removal.key);
        assert forall k <- registry.objects :: k != removal.key ==> registry.objects[k] != item.value;
        var unlinked := Unlink(item.value, removal.unlink, removal.linkedAfter);
        if unlinked {
          var error := registry.Remove(removal.key);
        }
      }
      ItemsKept();
    }

    // The loops of RowsAdded and RowsUpdated.
    method PutRows(rows: seq<Row>, update: bool)
      requires registry.Valid()
      modifies registry, registry.Items()
      ensures registry.Valid() && KeptOrNew()
      ensures Follows(old(registry.View()), old(registry.objects), registry.View(), registry.objects, Puts(rows))
    {
      hide Follows, Apply;
      ghost var v0, m0, events := registry.View(), registry.objects, Puts(rows);
      var i := 0;
      FollowsNone(v0, m0, events);
      while i < |rows|
        invariant 0 <= i <= |rows| && registry.Valid() && KeptOrNew()
        invariant Follows(v0, m0, registry.View(), registry.objects, events[..i])
      {
        ghost var v, m := registry.View(), registry.objects;
        PutRow(rows[i], update);
        FollowsStep(v0, m0, v, m, registry.View(), registry.objects, events, i);
        i := i + 1;
      }
      assert events[..i] == events;
    }

    method RowsAdded(rows: seq<Row>)
      requires registry.Valid()
      modifies registry, registry.Items()
      ensures registry.Valid() && KeptOrNew()
      ensures Follows(old(registry.View()), old(registry.objects), registry.View(), registry.objects, Puts(rows))
    {
      PutRows(rows, false);
    }

    method RowsUpdated(rows: seq<Row>)
      requires registry.Valid()
      modifies registry, registry.Items()
      ensures registry.Valid() && KeptOrNew()
      ensures Follows(old(registry.View()), old(registry.objects), registry.View(), registry.objects, Puts(rows))
    {
      PutRows(rows, true);
    }

    method RowsRemoved(removals: seq<Removal>)
      requires registry.Valid()
      modifies registry, registry.Items()
      ensures registry.Valid() && KeptOrNew()
      ensures Follows(old(registry.View()), old(registry.objects), registry.View(), registry.objects, Drops(removals))
    {
      hide Follows, Apply;
      ghost var v0, m0, events := registry.View(), registry.objects, Drops(removals);
      var i := 0;
      FollowsNone(v0, m0, events);
      while i < |removals|
        invariant 0 <= i <= |removals| && registry.Valid() && KeptOrNew()
        invariant Follows(v0, m0, registry.View(), registry.objects, events[..i])
      {
        ghost var v, m := registry.View(), registry.objects;
        DropRow(removals[i]);
        FollowsStep(v0, m0, v, m, registry.View(), registry.objects, events, i);
        i := i + 1;
      }
      assert events[..i] == events;
    }

    // The first synchronization: the rows of the table that pass the filter are added.
    method LoadCurrentData(table: seq<Row>)
      requires registry.Valid()
      modifies registry, registry.Items()
      ensures registry.Valid() && KeptOrNew()
      ensures Follows(old(registry.View()), old(registry.objects), registry.View(), registry.objects,
                      Puts(Filtered(table)))
    {
      RowsAdded(Filtered(table));
    }

    // Any history of calls to the policy, each with its rows.
    method Run(history: seq<Batch>)
      requires registry.Valid()
      modifies registry, registry.Items()
      ensures registry.Valid() && KeptOrNew()
      ensures Follows(old(registry.View()), old(registry.objects), registry.View(), registry.objects, Events(history))
    {
      hide Follows, Puts, Drops;
      ghost var v0, m0 := registry.View(), registry.objects;
      var i := 0;
      FollowsNone(v0, m0, []);
      while i < |history|
        invariant 0 <= i <= |history| && registry.Valid() && KeptOrNew()
        invariant Follows(v0, m0, registry.View(), registry.objects, Events(history[..i]))
      {
        ghost var v, m := registry.View(), registry.objects;
        assert history[..i + 1][..i] == history[..i];
        match history[i] {
        case Current(table) => LoadCurrentData(table);
        case Added(rows) => RowsAdded(rows);
        case Updated(rows) => RowsUpdated(rows);
        case Removed(removals) => RowsRemoved(removals);
        }
        FollowsOn(v0, m0, v, m, registry.View(), registry.objects, Events(history[..i]), EventsOf(history[i]));
        i := i + 1;
      }
      assert history[..i] == history;
    }
  }

  // ----- Histories -----

  datatype Batch =
    | Current(table: seq<Row>)
    | Added(rows: seq<Row>)
    | Updated(rows: seq<Row>)
    | Removed(removals: seq<Removal>)

  // WHERE, with the filter as the condition.
  function Filtered(table: seq<Row>): seq<Row> {
    if table == [] then []
    else
      var init, row := Filtered(table[..|table| - 1]), table[|table| - 1];
      if row.isLoaded then init + [row] else init
  }

  function EventsOf(b: Batch): seq<Event> {
    match b
    case Current(table) => Puts(Filtered(table))
    case Added(rows) => Puts(rows)
    case Updated(rows) => Puts(rows)
    case Removed(removals) => Drops(removals)
  }

  function Events(history: seq<Batch>): seq<Event> {
    if history == [] then [] else Events(history[..|history| - 1]) + EventsOf(history[|history| - 1])
  }

  // From the view v0 of the objects m0 to the view v of the objects m: what the events make
  // of the view, and a key that is loaded all along keeps its object.
  ghost predicate Follows(v0: View, m0: map<int, Registrable>, v: View, m: map<int, Registrable>, events: seq<Event>) {
    && v0.Keys == m0.Keys && v.Keys == m.Keys && v == ApplyAll(v0, events)
    && forall k | StaysLoaded(v0, events, k) :: k in m0 && k in m && m[k] == m0[k]
  }

  lemma FollowsNone(v0: View, m0: map<int, Registrable>, events: seq<Event>)
    requires v0.Keys == m0.Keys
    ensures Follows(v0, m0, v0, m0, events[..0])
  {
    NoneYet(v0);
    assert events[..0] == [];
  }

  lemma FollowsStep(v0: View, m0: map<int, Registrable>, v: View, m: map<int, Registrable>,
                    v1: View, m1: map<int, Registrable>, events: seq<Event>, i: nat)
    requires i < |events| && Follows(v0, m0, v, m, events[..i])
    requires v1 == Apply(v, events[i]) && v1.Keys == m1.Keys
    requires forall k <- m1 | k in m :: m1[k] == m[k]
    ensures Follows(v0, m0, v1, m1, events[..i + 1])
  {
    hide Apply, StaysLoaded;
    OneMore(v0, events, i);
  }

  lemma {:induction false} ApplyAllOn(v: View, a: seq<Event>, b: seq<Event>)
    ensures ApplyAll(v, a + b) == ApplyAll(ApplyAll(v, a), b)
    decreases |b|
  {
    if b == [] {
      assert a + b == a;
    } else {
      ApplyAllOn(v, a, b[..|b| - 1]);
      assert (a + b)[..|a + b| - 1] == a + b[..|b| - 1];
    }
  }

  lemma StaysOn(v: View, a: seq<Event>, b: seq<Event>, k: int)
    requires StaysLoaded(v, a + b, k)
    ensures StaysLoaded(v, a, k) && StaysLoaded(ApplyAll(v, a), b, k)
  {
    forall i | 0 <= i <= |a| ensures k in ApplyAll(v, a[..i]) {
      assert (a + b)[..i] == a[..i];
    }
    forall i | 0 <= i <= |b| ensures k in ApplyAll(ApplyAll(v, a), b[..i]) {
      assert (a + b)[..|a| + i] == a + b[..i];
      ApplyAllOn(v, a, b[..i]);
    }
  }

  lemma FollowsOn(v0: View, m0: map<int, Registrable>, v: View, m: map<int, Registrable>,
                  v1: View, m1: map<int, Registrable>, a: seq<Event>, b: seq<Event>)
    requires Follows(v0, m0, v, m, a) && Follows(v, m, v1, m1, b)
    ensures Follows(v0, m0, v1, m1, a + b)
  {
    hide StaysLoaded;
    ApplyAllOn(v0, a, b);
    forall k | StaysLoaded(v0, a + b, k) ensures k in m0 && k in m1 && m1[k] == m0[k] {
      StaysOn(v0, a, b, k);
    }
  }

  lemma NoneYet(v: View)
    ensures forall k | StaysLoaded(v, [], k) :: k in v
  {
    forall k | StaysLoaded(v, [], k) ensures k in v {
      assert k in ApplyAll(v, [][..0]);
    }
  }

  lemma OneMore(v: View, events: seq<Event>, i: nat)
    requires i < |events|
    ensures ApplyAll(v, events[..i + 1]) == Apply(ApplyAll(v, events[..i]), events[i])
    ensures forall k | StaysLoaded(v, events[..i + 1], k) ::
              StaysLoaded(v, events[..i], k) && k in ApplyAll(v, events[..i]) && k in ApplyAll(v, events[..i + 1])
  {
    assert events[..i + 1][..i] == events[..i];
    forall k | StaysLoaded(v, events[..i + 1], k)
      ensures StaysLoaded(v, events[..i], k) && k in ApplyAll(v, events[..i]) && k in ApplyAll(v, events[..i + 1])
    {
      assert events[..i + 1][..i + 1] == events[..i + 1];
      forall j | 0 <= j <= i ensures k in ApplyAll(v, events[..i][..j]) {
        assert events[..i][..j] == events[..i + 1][..j];
      }
    }
  }

  // ----- What is loaded after a history -----

  function KeyOf(e: Event): int {
    match e
    case Put(row) => row.key
    case Drop(removal) => removal.key
  }

  // The view after some events, from an empty registry.
  function After(events: seq<Event>): View {
    ApplyAll(map[], events)
  }

  // The last event about k is event i: a row that passes the filter, and loads without exception.
  predicate LoadedBy(events: seq<Event>, i: nat, k: int) {
    && i < |events| && events[i].Put? && KeyOf(events[i]) == k
    && Accepted(events[i].row, k in After(events[..i]))
    && forall j | i < j < |events| :: KeyOf(events[j]) != k
  }

  ghost predicate Live(events: seq<Event>, k: int) {
    exists i: nat :: LoadedBy(events, i, k)
  }

  // A deletion in which the code of the object throws.
  predicate Stuck(v: View, e: Event) {
    e.Drop? && e.removal.key in v && e.removal.unlink.Throws?
  }

  ghost predicate NeverStuck(events: seq<Event>) {
    forall n | 0 <= n < |events| :: !Stuck(After(events[..n]), events[n])
  }

  lemma LoadedByEarlier(events: seq<Event>, i: nat, k: int)
    requires events != [] && KeyOf(events[|events| - 1]) != k
    ensures LoadedBy(events, i, k) <==> LoadedBy(events[..|events| - 1], i, k)
  {
    var init := events[..|events| - 1];
    if i < |init| { assert events[..i] == init[..i]; }
  }

  lemma LiveEarlier(events: seq<Event>, k: int)
    requires events != [] && KeyOf(events[|events| - 1]) != k
    ensures Live(events, k) <==> Live(events[..|events| - 1], k)
  {
    var init := events[..|events| - 1];
    if Live(events, k) {
      var i: nat :| LoadedBy(events, i, k);
      LoadedByEarlier(events, i, k);
    }
    if Live(init, k) {
      var i: nat :| LoadedBy(init, i, k);
      LoadedByEarlier(events, i, k);
    }
  }

  lemma LiveNow(events: seq<Event>)
    requires events != []
    ensures var n := |events| - 1;
            var e := events[n];
            Live(events, KeyOf(e)) <==> e.Put? && Accepted(e.row, KeyOf(e) in After(events[..n]))
  {
    var n: nat := |events| - 1;
    var k := KeyOf(events[n]);
    assert LoadedBy(events, n, k) <==> events[n].Put? && Accepted(events[n].row, k in After(events[..n]));
    if Live(events, k) {
      var i: nat :| LoadedBy(events, i, k);
      assert i == n;
    }
  }

  // The registry holds exactly the live keys, each with the content of its latest row.
  lemma {:induction false} HoldsLatest(events: seq<Event>)
    requires NeverStuck(events)
    ensures forall k :: k in After(events) <==> Live(events, k)
    ensures forall k, i: nat | LoadedBy(events, i, k) ::
              k in After(events) && After(events)[k] == Entry(Some(events[i].row.record), true)
    decreases |events|
  {
    if events != [] {
      var n := |events| - 1;
      var init, e := events[..n], events[n];
      assert NeverStuck(init) by {
        forall j | 0 <= j < n ensures !Stuck(After(init[..j]), init[j]) { assert init[..j] == events[..j]; }
      }
      HoldsLatest(init);
      LiveNow(events);
      forall k | k != KeyOf(e) ensures k in After(events) <==> Live(events, k) { LiveEarlier(events, k); }
      forall k, i: nat | LoadedBy(events, i, k)
        ensures k in After(events) && After(events)[k] == Entry(Some(events[i].row.record), true)
      {
        if k != KeyOf(e) { LoadedByEarlier(events, i, k); }
      }
    }
  }

  // In step after every event.
  ghost predicate InStep(events: seq<Event>) {
    forall n, k | 0 <= n <= |events| :: k in After(events[..n]) <==> Live(events[..n], k)
  }

  // A registry follows its table exactly when no deletion fails on a loaded object.
  lemma InStepIff(events: seq<Event>)
    ensures InStep(events) <==> NeverStuck(events)
  {
    if NeverStuck(events) {
      forall n, k | 0 <= n <= |events| ensures k in After(events[..n]) <==> Live(events[..n], k) {
        assert NeverStuck(events[..n]) by {
          forall j | 0 <= j < n ensures !Stuck(After(events[..n][..j]), events[..n][j]) {
            assert events[..n][..j] == events[..j];
          }
        }
        HoldsLatest(events[..n]);
      }
    }
    forall n | 0 <= n < |events| && Stuck(After(events[..n]), events[n]) ensures !InStep(events) {
      var some := events[..n + 1];
      assert some[..n] == events[..n];
      LiveNow(some);
      assert KeyOf(events[n]) in After(some);
    }
  }

  // A row is loaded, then deleted with an Unlink that throws: its object stays.
  lemma StuckDeletion()
    ensures var row := Row(1, map[], true, Returns, Returns, Returns);
            !InStep([Put(row), Drop(Removal(1, Throws, true))])
  {
    var row := Row(1, map[], true, Returns, Returns, Returns);
    var events := [Put(row), Drop(Removal(1, Throws, true))];
    assert events[..1] == [Put(row)] && [Put(row)][..0] == [];
    assert 1 in After(events[..1]);
    assert Stuck(After(events[..1]), events[1]);
    InStepIff(events);
  }

  // ----- The first synchronization -----

  predicate DistinctKeys(table: seq<Row>) {
    forall i, j | 0 <= i < j < |table| :: table[i].key != table[j].key
  }

  lemma {:induction false} KeysComeFromRows(rows: seq<Row>, k: int)
    requires forall i | 0 <= i < |rows| :: rows[i].key != k
    ensures k !in After(Puts(rows))
    decreases |rows|
  {
    if rows != [] {
      assert Puts(rows)[..|rows| - 1] == Puts(rows[..|rows| - 1]);
      KeysComeFromRows(rows[..|rows| - 1], k);
    }
  }

  // Selecting the rows that pass the filter leaves the same view as adding the whole table.
  lemma {:induction false} SelectingIsFiltering(table: seq<Row>)
    requires DistinctKeys(table)
    ensures After(Puts(Filtered(table))) == After(Puts(table))
    decreases |table|
  {
    if table != [] {
      var n := |table| - 1;
      var init, row := table[..n], table[n];
      SelectingIsFiltering(init);
      assert Puts(table)[..n] == Puts(init);
      KeysComeFromRows(init, row.key);
      if row.isLoaded {
        var f := Filtered(init);
        assert Puts(f + [row])[..|f|] == Puts(f);
      } else {
        assert After(Puts(init)) - {row.key} == After(Puts(init));
      }
    }
  }
}
