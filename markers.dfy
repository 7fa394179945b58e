/**
 * The marker index built by `createMarker` and the loading loop of `fetchData`: a JavaScript
 * object keyed by the record's title, each value holding the Leaflet marker, its group and
 * its icon number.
 */
module Markers {
  import opened Options
  import opened Groups
  import opened Surface

  /** One parsed entry of the data file, reduced to the fields the component keeps. */
  datatype Record = Record(group: string, iconNum: string, title: string)

  /** The value `{marker, group, iconNum}` stored under a title. */
  datatype Entry = Entry(marker: Handle, group: Group, iconNum: string)

  /**
   * A JavaScript object with string keys: `keys` is the order `Object.keys` reports
   * (first insertion; no title looks like an array index or is `__proto__`), `entries` the key/value pairs.
   */
  datatype Table = Table(keys: seq<string>, entries: map<string, Entry>)

  const Empty: Table := Table([], map[])

  ghost predicate Distinct(ks: seq<string>)
  {
    forall i, j :: 0 <= i < j < |ks| ==> ks[i] != ks[j]
  }

  /** `x` is listed before `y` in `ks`. */
  ghost predicate Before(ks: seq<string>, x: string, y: string)
  {
    exists a, b :: 0 <= a < b < |ks| && ks[a] == x && ks[b] == y
  }

  /** An order seen after the first key is an order of the whole sequence. */
  lemma BeforeInTail(ks: seq<string>, x: string, y: string)
    requires ks != [] && Before(ks[1..], x, y)
    ensures Before(ks, x, y)
  {
    var a, b :| 0 <= a < b < |ks[1..]| && ks[1..][a] == x && ks[1..][b] == y;
    assert ks[a + 1] == x && ks[b + 1] == y;
  }

  /** The first key comes before any key listed after it. */
  lemma BeforeFromHead(ks: seq<string>, y: string)
    requires ks != [] && y in ks[1..]
    ensures Before(ks, ks[0], y)
  {
    var b :| 0 <= b < |ks[1..]| && ks[1..][b] == y;
    assert ks[b + 1] == y;
  }

  /** Each key is listed once, and the listed keys are exactly the keys that have a value. */
  ghost predicate WellFormed(t: Table)
  {
    && Distinct(t.keys)
    && forall k :: k in t.entries <==> k in t.keys
  }

  /**
   * `markersObject[k] = e`: afterwards `k` holds `e`, every other key keeps its value, and the
   * key order is kept when `k` was present and extended by `k` when it was new.
   */
  function Put(t: Table, k: string, e: Entry): (r: Table)
    ensures k in r.entries && r.entries[k] == e
    ensures forall k' :: k' != k ==> (k' in r.entries <==> k' in t.entries)
    ensures forall k' :: k' != k && k' in t.entries ==> r.entries[k'] == t.entries[k']
    ensures k in t.entries ==> r.keys == t.keys
    ensures k !in t.entries ==> r.keys == t.keys + [k]
  {
    Table(if k in t.entries then t.keys else t.keys + [k], t.entries[k := e])
  }

  /** Writing a key keeps every key listed once and the listed keys those with a value. */
  lemma PutKeepsWellFormed(t: Table, k: string, e: Entry)
    requires WellFormed(t)
    ensures WellFormed(Put(t, k, e))
  {
  }

  /** The state the loading loop threads through: the object being filled, the layer groups, and the next marker identity. */
  datatype Progress = Progress(table: Table, layers: Layers, next: Handle)

  /** How a run of `createMarker` calls ended: every call returned, or one threw. */
  datatype Outcome = Completed(progress: Progress) | Threw(progress: Progress)

  /** Every value of the table is a marker placed on the layer group of its own group. */
  ghost predicate OnLayers(t: Table, layers: Layers)
  {
    forall k :: k in t.entries ==> (t.entries[k].group, t.entries[k].marker) in layers
  }

  /**
   * One call of `createMarker`: a marker is drawn, then added to `Icons[group]`. For a group
   * outside `Icons` that addition throws, and nothing else has changed but the spent marker.
   */
  function Step(p: Progress, r: Record): (o: Outcome)
    ensures o.progress.next == p.next + 1
    ensures o.Threw? <==> Lookup(r.group).None?
    ensures o.Threw? ==> o.progress.table == p.table && o.progress.layers == p.layers
    ensures o.Completed? ==> r.title in o.progress.table.entries && o.progress.table.entries[r.title] == Entry(p.next, Lookup(r.group).value, r.iconNum)
    ensures o.Completed? ==> o.progress.layers == p.layers + {(Lookup(r.group).value, p.next)}
  {
    match Lookup(r.group)
    case None => Threw(p.(next := p.next + 1))
    case Some(g) =>
      Completed(Progress(Put(p.table, r.title, Entry(p.next, g, r.iconNum)), AddTo(p.layers, g, p.next), p.next + 1))
  }

  /** A step only adds to the layers, and it places the marker it registers on its group's layer. */
  lemma StepKeepsLayers(p: Progress, r: Record)
    ensures p.layers <= Step(p, r).progress.layers
    ensures OnLayers(p.table, p.layers) ==> OnLayers(Step(p, r).progress.table, Step(p, r).progress.layers)
  {
  }

  /**
   * The `forEach` over the records: `createMarker` on each in turn, stopping at the first
   * throw. Each call spends one marker, so a run that ends draws one per record, and one that
   * throws draws one per record up to and including the one that threw.
   */
  function Run(p: Progress, rs: seq<Record>): (o: Outcome)
    ensures o.Completed? ==> o.progress.next == p.next + |rs|
    ensures o.Threw? ==> p.next < o.progress.next <= p.next + |rs|
    decreases |rs|
  {
    if rs == [] then Completed(p)
    else
      var o := Step(p, rs[0]);
      if o.Threw? then o else Run(o.progress, rs[1..])
  }

  /** Loading keeps every key listed once and the listed keys exactly those with a value. */
  lemma {:induction false} RunKeepsWellFormed(p: Progress, rs: seq<Record>)
    requires WellFormed(p.table)
    ensures WellFormed(Run(p, rs).progress.table)
    decreases |rs|
  {
    if rs != [] {
      var o := Step(p, rs[0]);
      if o.Completed? {
        PutKeepsWellFormed(p.table, rs[0].title, Entry(p.next, Lookup(rs[0].group).value, rs[0].iconNum));
        RunKeepsWellFormed(o.progress, rs[1..]);
      }
    }
  }

  /** The loop runs to its end exactly when every record names one of the seven groups. */
  lemma {:induction false} RunThrowsIffUnknownGroup(p: Progress, rs: seq<Record>)
    ensures Run(p, rs).Threw? <==> exists i :: 0 <= i < |rs| && Lookup(rs[i].group).None?
    decreases |rs|
  {
    if rs != [] {
      var o := Step(p, rs[0]);
      if o.Completed? {
        RunThrowsIffUnknownGroup(o.progress, rs[1..]);
        if exists i :: 0 <= i < |rs| && Lookup(rs[i].group).None? {
          var i :| 0 <= i < |rs| && Lookup(rs[i].group).None?;
          assert rs[1..][i - 1] == rs[i];
        }
        if exists i :: 0 <= i < |rs[1..]| && Lookup(rs[1..][i].group).None? {
          var i :| 0 <= i < |rs[1..]| && Lookup(rs[1..][i].group).None?;
          assert rs[i + 1] == rs[1..][i];
        }
      }
    }
  }

  /** A key that no record of the run carries keeps its presence and its value. */
  lemma {:induction false} RunLeavesOtherTitles(p: Progress, rs: seq<Record>, t: string)
    requires Run(p, rs).Completed?
    requires forall i :: 0 <= i < |rs| ==> rs[i].title != t
    ensures t in Run(p, rs).progress.table.entries <==> t in p.table.entries
    ensures t in p.table.entries ==> Run(p, rs).progress.table.entries[t] == p.table.entries[t]
    decreases |rs|
  {
    if rs != [] {
      var o := Step(p, rs[0]);
      assert rs[0].title != t;
      forall i | 0 <= i < |rs[1..]| ensures rs[1..][i].title != t {
        assert rs[1..][i] == rs[i + 1];
      }
      RunLeavesOtherTitles(o.progress, rs[1..], t);
    }
  }

  /**
   * A later record with the same title replaces the earlier one: the title holds the marker,
   * group and icon number of its last record, the marker being the one drawn for that record.
   */
  lemma {:induction false} RunLastRecordWins(p: Progress, rs: seq<Record>, i: nat)
    requires Run(p, rs).Completed?
    requires i < |rs|
    requires forall j :: i < j < |rs| ==> rs[j].title != rs[i].title
    ensures Lookup(rs[i].group).Some?
    ensures rs[i].title in Run(p, rs).progress.table.entries
    ensures Run(p, rs).progress.table.entries[rs[i].title]
            == Entry(p.next + i, Lookup(rs[i].group).value, rs[i].iconNum)
    decreases |rs|
  {
    var o := Step(p, rs[0]);
    assert o.Completed?;
    if i == 0 {
      forall j | 0 <= j < |rs[1..]| ensures rs[1..][j].title != rs[0].title {
        assert rs[1..][j] == rs[j + 1];
      }
      RunLeavesOtherTitles(o.progress, rs[1..], rs[0].title);
    } else {
      forall j | i - 1 < j < |rs[1..]| ensures rs[1..][j].title != rs[1..][i - 1].title {
        assert rs[1..][j] == rs[j + 1];
      }
      RunLastRecordWins(o.progress, rs[1..], i - 1);
      assert rs[1..][i - 1] == rs[i];
    }
  }

  /** A completed run holds a title exactly when it was there before or some record carries it. */
  lemma {:induction false} RunKeys(p: Progress, rs: seq<Record>, t: string)
    requires Run(p, rs).Completed?
    ensures t in Run(p, rs).progress.table.entries
            <==> t in p.table.entries || exists i :: 0 <= i < |rs| && rs[i].title == t
    decreases |rs|
  {
    if rs != [] {
      var o := Step(p, rs[0]);
      RunKeys(o.progress, rs[1..], t);
      if exists i :: 0 <= i < |rs| && rs[i].title == t {
        var i :| 0 <= i < |rs| && rs[i].title == t;
        if i > 0 { assert rs[1..][i - 1] == rs[i]; }
      }
      if exists i :: 0 <= i < |rs[1..]| && rs[1..][i].title == t {
        var i :| 0 <= i < |rs[1..]| && rs[1..][i].title == t;
        assert rs[i + 1] == rs[1..][i];
      }
    }
  }

  /**
   * Whatever the run's outcome, the layer groups only gain markers, and a table whose markers
   * all sit on their group's layer still has that property.
   */
  lemma {:induction false} RunKeepsLayers(p: Progress, rs: seq<Record>)
    ensures p.layers <= Run(p, rs).progress.layers
    ensures OnLayers(p.table, p.layers) ==> OnLayers(Run(p, rs).progress.table, Run(p, rs).progress.layers)
    decreases |rs|
  {
    if rs != [] {
      var o := Step(p, rs[0]);
      StepKeepsLayers(p, rs[0]);
      if o.Completed? {
        RunKeepsLayers(o.progress, rs[1..]);
      }
    }
  }

  /**
   * Every record of a completed run leaves its marker `h` (the one drawn for it) on its
   * group's layer, including a record whose title a later record took over: the replaced
   * marker is not removed.
   */
  lemma {:induction false} RunPlacesEveryMarker(p: Progress, rs: seq<Record>, i: nat, h: Handle)
    requires Run(p, rs).Completed?
    requires i < |rs|
    requires h == p.next + i
    ensures Lookup(rs[i].group).Some?
    ensures (Lookup(rs[i].group).value, h) in Run(p, rs).progress.layers
    decreases |rs|
  {
    var q, rest := Step(p, rs[0]).progress, rs[1..];
    assert Run(p, rs) == Run(q, rest);
    if i == 0 {
      RunKeepsLayers(q, rest);
    } else {
      assert rest[i - 1] == rs[i];
      RunPlacesEveryMarker(q, rest, i - 1, h);
    }
  }

  /**
   * The markers a run adds to the layer groups are freshly drawn: each lies between the
   * counter before the run and the counter after it, so none was on a layer before.
   */
  lemma {:induction false} RunDrawsFreshMarkers(p: Progress, rs: seq<Record>)
    ensures forall q :: q in Run(p, rs).progress.layers && q !in p.layers ==>
              p.next <= q.1 < Run(p, rs).progress.next
    decreases |rs|
  {
    if rs != [] {
      var o := Step(p, rs[0]);
      if o.Completed? {
        RunDrawsFreshMarkers(o.progress, rs[1..]);
      }
    }
  }

  /**
   * The key order of an object written by the records `rs` in turn, starting from the keys
   * `ks`: a title already present keeps its place, a new title goes at the end.
   */
  ghost function Appended(ks: seq<string>, rs: seq<Record>): seq<string>
    decreases |rs|
  {
    if rs == [] then ks
    else Appended(if rs[0].title in ks then ks else ks + [rs[0].title], rs[1..])
  }

  /** A completed load leaves the keys in the order `Appended` gives. */
  lemma {:induction false} RunKeysAppendTitles(p: Progress, rs: seq<Record>)
    requires WellFormed(p.table)
    requires Run(p, rs).Completed?
    ensures Run(p, rs).progress.table.keys == Appended(p.table.keys, rs)
    decreases |rs|
  {
    if rs != [] {
      var o := Step(p, rs[0]);
      PutKeepsWellFormed(p.table, rs[0].title, Entry(p.next, Lookup(rs[0].group).value, rs[0].iconNum));
      RunKeysAppendTitles(o.progress, rs[1..]);
    }
  }

  /** Appending never moves the keys already there. */
  lemma {:induction false} AppendedKeepsPrefix(ks: seq<string>, rs: seq<Record>)
    ensures ks <= Appended(ks, rs)
    decreases |rs|
  {
    if rs != [] {
      var ks' := if rs[0].title in ks then ks else ks + [rs[0].title];
      AppendedKeepsPrefix(ks', rs[1..]);
    }
  }

  /** Every title of the records ends up among the keys. */
  lemma {:induction false} AppendedLists(ks: seq<string>, rs: seq<Record>, i: nat)
    requires i < |rs|
    ensures rs[i].title in Appended(ks, rs)
    decreases |rs|
  {
    var ks' := if rs[0].title in ks then ks else ks + [rs[0].title];
    if i == 0 {
      AppendedKeepsPrefix(ks', rs[1..]);
      assert rs[0].title in ks';
    } else {
      assert rs[1..][i - 1] == rs[i];
      AppendedLists(ks', rs[1..], i - 1);
    }
  }

  /**
   * Keys come in the order titles were first seen: of two titles new to `ks`, the one whose
   * first record comes earlier is the earlier key.
   */
  lemma {:induction false} AppendedFirstSeenOrder(ks: seq<string>, rs: seq<Record>, i: nat, j: nat, x: string, y: string)
    requires i < j < |rs| && x == rs[i].title && y == rs[j].title
    requires x !in ks && y !in ks
    requires forall k :: 0 <= k < i ==> rs[k].title != x
    requires forall k :: 0 <= k < j ==> rs[k].title != y
    ensures Before(Appended(ks, rs), x, y)
    decreases |rs|
  {
    var ks' := if rs[0].title in ks then ks else ks + [rs[0].title];
    assert Appended(ks, rs) == Appended(ks', rs[1..]);
    FirstSeenInRest(rs, j, y);
    if i == 0 {
      var all := Appended(ks', rs[1..]);
      AppendedKeepsPrefix(ks', rs[1..]);
      AppendedLists(ks', rs[1..], j - 1);
      var b :| 0 <= b < |all| && all[b] == y;
      assert all[|ks|] == ks'[|ks|] == x;
      assert |ks| < b;
    } else {
      FirstSeenInRest(rs, i, x);
      AppendedFirstSeenOrder(ks', rs[1..], i - 1, j - 1, x, y);
    }
  }

  /**
   * `Object.keys` of a loaded object lists titles in the order they were first seen: of two
   * titles new to the object, the one whose first record comes earlier is the earlier key.
   */
  lemma RunFirstSeenOrder(p: Progress, rs: seq<Record>, i: nat, j: nat)
    requires WellFormed(p.table)
    requires Run(p, rs).Completed?
    requires i < j < |rs|
    requires rs[i].title !in p.table.entries && rs[j].title !in p.table.entries
    requires forall k :: 0 <= k < i ==> rs[k].title != rs[i].title
    requires forall k :: 0 <= k < j ==> rs[k].title != rs[j].title
    ensures Before(Run(p, rs).progress.table.keys, rs[i].title, rs[j].title)
  {
    RunKeysAppendTitles(p, rs);
    AppendedFirstSeenOrder(p.table.keys, rs, i, j, rs[i].title, rs[j].title);
  }

  /** A title first seen at index `i > 0` is first seen at `i - 1` once the first record is dropped. */
  lemma FirstSeenInRest(rs: seq<Record>, i: nat, x: string)
    requires 0 < i < |rs| && x == rs[i].title
    requires forall k :: 0 <= k < i ==> rs[k].title != x
    ensures rs[1..][i - 1].title == x && rs[0].title != x
    ensures forall k :: 0 <= k < i - 1 ==> rs[1..][k].title != x
  {
    forall k | 0 <= k < i - 1 ensures rs[1..][k].title != x {
      assert rs[1..][k] == rs[k + 1];
    }
  }

  /** The titles the records carry. */
  ghost function Titles(rs: seq<Record>): set<string>
  {
    set i | 0 <= i < |rs| :: rs[i].title
  }

  /** A sequence without repetitions has as many elements as its set of elements. */
  lemma {:induction false} DistinctSize(ks: seq<string>)
    requires Distinct(ks)
    ensures |set k | k in ks| == |ks|
  {
    if ks != [] {
      var rest := ks[1..];
      assert Distinct(rest) by {
        forall i, j | 0 <= i < j < |rest| ensures rest[i] != rest[j] {
          assert rest[i] == ks[i + 1] && rest[j] == ks[j + 1];
        }
      }
      DistinctSize(rest);
      assert ks[0] !in rest by {
        forall i | 0 <= i < |rest| ensures rest[i] != ks[0] {
          assert rest[i] == ks[i + 1];
        }
      }
      assert (set k | k in ks) == (set k | k in rest) + {ks[0]};
    }
  }

  /**
   * A load that runs to its end from the empty object lists every title of the data once:
   * the keys are exactly the distinct titles.
   */
  lemma LoadedKeys(layers: Layers, next: Handle, rs: seq<Record>)
    requires Run(Progress(Empty, layers, next), rs).Completed?
    ensures WellFormed(Run(Progress(Empty, layers, next), rs).progress.table)
    ensures forall t :: t in Run(Progress(Empty, layers, next), rs).progress.table.keys <==> t in Titles(rs)
    ensures |Run(Progress(Empty, layers, next), rs).progress.table.keys| == |Titles(rs)|
  {
    var p := Progress(Empty, layers, next);
    var d := Run(p, rs).progress.table;
    RunKeepsWellFormed(p, rs);
    forall t ensures t in d.keys <==> t in Titles(rs) {
      RunKeys(p, rs, t);
      if t in Titles(rs) {
        var i :| 0 <= i < |rs| && rs[i].title == t;
      }
    }
    DistinctSize(d.keys);
    assert (set k | k in d.keys) == Titles(rs);
  }

  /** The object passed to `createMarker` as `markersObject`, filled in place. */
  class MarkersObject {
    var keys: seq<string>
    var entries: map<string, Entry>

    function Value(): Table
      reads this
    {
      Table(keys, entries)
    }

    ghost predicate Valid()
      reads this
    {
      WellFormed(Value())
    }

    /** `const newMarkers = {}` */
    constructor ()
      ensures Valid() && Value() == Empty
    {
      keys := [];
      entries := map[];
    }

    /** `markersObject[k] = e` */
    method Set(k: string, e: Entry)
      requires Valid()
      modifies this
      ensures Valid()
      ensures Value() == Put(old(Value()), k, e)
    {
      if k !in entries {
        keys := keys + [k];
      }
      entries := entries[k := e];
    }
  }
}
