/** The component walk of SizingWT/export_volumes.py: a pre-order
    traversal of a CAD document's object tree that writes one row per
    component, with the component's caption drawn as a tree and its volume
    counted once per distinct shape. The document is an abstract object
    graph; FreeCAD's loading, the solid volumes and shape hashes are data,
    and the CSV file is left out. */
module CadExport {
  import opened Base

  type ObjId = nat

  /** A shape as the walk sees it: whether it is null, its hash code and
      the volumes of its solids (mm³). */
  datatype Shape = Shape(isNull: bool, hash: int, solids: seq<real>)

  /** A document object. `linked` is LinkedObject when it is set, `group`
      is the Group attribute when the object has one, `shape` the Shape
      attribute when the object has one. */
  datatype Obj = Obj(
    name: string,
    typeId: string,
    caption: string,
    linked: Option<ObjId>,
    group: Option<seq<ObjId>>,
    shape: Option<Shape>)

  /** A document: its objects by identity, and doc.Objects in order. */
  datatype Doc = Doc(objects: map<ObjId, Obj>, order: seq<ObjId>)

  /** Every reference held by the document names one of its objects. */
  predicate WellFormed(doc: Doc)
  {
    && (forall id :: id in doc.order ==> id in doc.objects)
    && (forall id :: id in doc.objects ==> id in doc.order)
    && (forall id :: id in doc.objects && doc.objects[id].linked.Some? ==> doc.objects[id].linked.value in doc.objects)
    && (forall id :: id in doc.objects && doc.objects[id].group.Some? ==>
          forall c :: c in doc.objects[id].group.value ==> c in doc.objects)
  }

  const LinkType := "App::Link"

  const SkipTypes: set<string> := {
    "Sketcher::SketchObject",
    "PartDesign::Pad",
    "PartDesign::Pocket",
    "PartDesign::Chamfer",
    "PartDesign::Fillet",
    "PartDesign::Revolution",
    "PartDesign::Boolean",
    "PartDesign::Mirrored",
    "Part::Feature"
  }

  const SkipKeywords: set<string> := {"Sketch", "Pocket", "Pad", "Groove", "Chamfer", "Pattern", "Thread"}

  /** str.lower on the ASCII letters. */
  function LowerChar(c: char): (d: char)
    ensures 'A' <= c <= 'Z' ==> d as int == c as int + 32
    ensures !('A' <= c <= 'Z') ==> d == c
    ensures !('A' <= d <= 'Z')
  {
    if 'A' <= c <= 'Z' then (c as int + 32) as char else c
  }

  function Lower(s: string): (t: string)
    ensures |t| == |s|
    ensures forall i :: 0 <= i < |s| ==> t[i] == LowerChar(s[i])
  {
    seq(|s|, i requires 0 <= i < |s| => LowerChar(s[i]))
  }

  /** Lower-casing twice is lower-casing once. */
  lemma LowerIdempotent(s: string)
    ensures Lower(Lower(s)) == Lower(s)
  {
  }

  /** `sub` occurs in `s` starting at position i. */
  predicate OccursAt(sub: string, s: string, i: int)
  {
    0 <= i && i + |sub| <= |s| && s[i..i + |sub|] == sub
  }

  lemma OccursShift(sub: string, s: string)
    requires |s| > 0
    ensures (exists i :: OccursAt(sub, s[1..], i)) ==> exists i :: OccursAt(sub, s, i)
    ensures (exists i :: OccursAt(sub, s, i)) && !OccursAt(sub, s, 0) ==> exists i :: OccursAt(sub, s[1..], i)
  {
    if i :| OccursAt(sub, s[1..], i) {
      assert s[i + 1..i + 1 + |sub|] == s[1..][i..i + |sub|];
      assert OccursAt(sub, s, i + 1);
    }
    if !OccursAt(sub, s, 0) && exists i :: OccursAt(sub, s, i) {
      var i :| OccursAt(sub, s, i);
      assert i > 0;
      assert s[1..][i - 1..i - 1 + |sub|] == s[i..i + |sub|];
      assert OccursAt(sub, s[1..], i - 1);
    }
  }

  /** Python's `sub in s` on strings: some position of s starts a copy of sub. */
  function Contains(s: string, sub: string): (b: bool)
    ensures b <==> exists i :: OccursAt(sub, s, i)
    decreases |s|
  {
    if |sub| > |s| then false
    else if s[..|sub|] == sub then assert OccursAt(sub, s, 0); true
    else OccursShift(sub, s); Contains(s[1..], sub)
  }

  /** should_skip: a construction feature by type, or a caption that
      contains one of the keywords, ignoring case. */
  predicate ShouldSkip(o: Obj): (b: bool)
    ensures b <==> (o.typeId in SkipTypes ||
      exists kw, i :: kw in SkipKeywords && OccursAt(Lower(kw), Lower(o.caption), i))
  {
    o.typeId in SkipTypes || exists kw :: kw in SkipKeywords && Contains(Lower(o.caption), Lower(kw))
  }

  /** The skip decision ignores the case of the caption. */
  lemma ShouldSkipIgnoresCase(o: Obj, caption: string)
    requires Lower(caption) == Lower(o.caption)
    ensures ShouldSkip(o.(caption := caption)) <==> ShouldSkip(o)
  {
  }

  /** Every keyword, written anywhere in a caption in any case, skips the
      object, whatever its type; and an object of a skipped type is skipped
      whatever its caption. */
  lemma ShouldSkipKeyword(o: Obj, kw: string, i: nat)
    requires kw in SkipKeywords && OccursAt(Lower(kw), Lower(o.caption), i)
    ensures ShouldSkip(o)
  {
  }

  /** An object whose type is not a skipped one and whose caption does not
      contain any keyword is kept. */
  lemma ShouldSkipKeeps(o: Obj)
    requires o.typeId !in SkipTypes
    requires forall kw, i :: kw in SkipKeywords ==> !OccursAt(Lower(kw), Lower(o.caption), i)
    ensures !ShouldSkip(o)
  {
  }

  const Pipe := "│   "
  const Elbow := "└── "
  const Tee := "├── "

  /** `n` copies of the continuation segment. */
  function Pipes(n: nat): (p: string)
    ensures |p| == 4 * n
    ensures forall i :: 0 <= i < n ==> p[4 * i..4 * i + 4] == Pipe
  {
    if n == 0 then ""
    else
      var q := Pipes(n - 1);
      assert forall i :: 0 <= i < n - 1 ==> (q + Pipe)[4 * i..4 * i + 4] == q[4 * i..4 * i + 4];
      assert (q + Pipe)[4 * (n - 1)..4 * n] == Pipe;
      q + Pipe
  }

  /** format_label: `indent` four-character segments, all "│   " but the
      last, which is "└── " for the last child and "├── " otherwise,
      followed by the caption. */
  function FormatLabel(caption: string, indent: nat, isLast: bool): (r: string)
    ensures |r| == 4 * indent + |caption|
    ensures r[4 * indent..] == caption
    ensures forall i :: 0 <= i < indent - 1 ==> r[4 * i..4 * i + 4] == Pipe
    ensures indent > 0 ==> r[4 * indent - 4..4 * indent] == if isLast then Elbow else Tee
  {
    if indent == 0 then caption
    else
      var p := Pipes(indent - 1) + (if isLast then Elbow else Tee);
      assert forall i :: 0 <= i < indent - 1 ==> (p + caption)[4 * i..4 * i + 4] == Pipes(indent - 1)[4 * i..4 * i + 4];
      assert (p + caption)[4 * indent - 4..4 * indent] == p[4 * indent - 4..4 * indent];
      assert (p + caption)[4 * indent..] == caption;
      p + caption
  }

  /** The object whose shape and children are used: the linked object of
      an App::Link that has one, the object itself otherwise. */
  function Target(doc: Doc, id: ObjId): (t: ObjId)
    requires WellFormed(doc) && id in doc.objects
    ensures t in doc.objects
    ensures doc.objects[id].typeId != LinkType ==> t == id
  {
    var o := doc.objects[id];
    if o.typeId == LinkType && o.linked.Some? then o.linked.value else id
  }

  /** get_children: the Group of the object, resolving one more link, or
      nothing when there is no Group. */
  function Children(doc: Doc, id: ObjId): (cs: seq<ObjId>)
    requires WellFormed(doc) && id in doc.objects
    ensures forall c :: c in cs ==> c in doc.objects
    ensures doc.objects[id].typeId != LinkType ==>
      cs == (if doc.objects[id].group.Some? then doc.objects[id].group.value else [])
  {
    var t := Target(doc, id);
    if doc.objects[t].group.Some? then doc.objects[t].group.value else []
  }

  /** A link to an object that is not itself a link has that object's
      children: get_children resolves the link before reading the Group. */
  lemma ChildrenThroughLink(doc: Doc, id: ObjId)
    requires WellFormed(doc) && id in doc.objects
    requires doc.objects[id].typeId == LinkType && doc.objects[id].linked.Some?
    requires doc.objects[doc.objects[id].linked.value].typeId != LinkType
    ensures Children(doc, id) == Children(doc, doc.objects[id].linked.value)
  {
  }

  /** One CSV row: the drawn caption and the volume in cm³, or the empty
      cell (None) when no positive volume was measured. */
  datatype Row = Row(caption: string, volume: Option<real>)

  /** The walk's state: visited objects, shape hashes already measured,
      the hash of each row that carries a volume (in row order), and the
      rows written so far. */
  datatype State = State(visited: set<ObjId>, processed: set<int>, counted: seq<int>, rows: seq<Row>)

  /** The volume of a shape, counted the first time its hash is seen: the
      new set of measured hashes and the volume (0 when nothing is
      counted). */
  function Measure(shape: Option<Shape>, processed: set<int>): (m: (set<int>, real))
    ensures shape.Some? && !shape.value.isNull && shape.value.hash !in processed ==>
      m == (processed + {shape.value.hash}, Sum(shape.value.solids))
    ensures !(shape.Some? && !shape.value.isNull && shape.value.hash !in processed) ==>
      m == (processed, 0.0)
    ensures shape.Some? && !shape.value.isNull ==> shape.value.hash in m.0
  {
    if shape.Some? && !shape.value.isNull && shape.value.hash !in processed then
      (processed + {shape.value.hash}, Sum(shape.value.solids))
    else (processed, 0.0)
  }

  /** The volume cell: volume / 1000 when the volume is positive, empty
      otherwise. */
  function VolumeCell(volume: real): (cell: Option<real>)
    ensures cell.None? <==> !(volume > 0.0)
    ensures cell.Some? ==> cell.value * 1000.0 == volume
  {
    if volume > 0.0 then Some(volume / 1000.0) else None
  }

  /** The number of rows with a volume. */
  function Measured(rows: seq<Row>): nat
  {
    if |rows| == 0 then 0
    else Measured(rows[..|rows| - 1]) + (if rows[|rows| - 1].volume.Some? then 1 else 0)
  }

  lemma {:induction false} MeasuredAppend(a: seq<Row>, b: seq<Row>)
    ensures Measured(a + b) == Measured(a) + Measured(b)
    decreases |b|
  {
    if |b| == 0 {
      assert a + b == a;
    } else {
      assert (a + b)[..|a + b| - 1] == a + b[..|b| - 1];
      MeasuredAppend(a, b[..|b| - 1]);
    }
  }

  lemma SubsetCardinality<T>(a: set<T>, b: set<T>)
    requires a <= b
    ensures |a| <= |b|
  {
    assert b == a + (b - a);
  }

  /** The hashes of all shapes of the document. */
  function Hashes(doc: Doc): set<int>
  {
    set id | id in doc.objects && doc.objects[id].shape.Some? :: doc.objects[id].shape.value.hash
  }

  /** What the walk keeps true of its state: it only visits and measures
      what the document holds, and the rows with a volume correspond one to
      one to distinct measured hashes. */
  predicate Sound(doc: Doc, st: State)
  {
    && st.visited <= doc.objects.Keys
    && st.processed <= Hashes(doc)
    && Distinct(st.counted)
    && Elements(st.counted) <= st.processed
    && |st.counted| == Measured(st.rows)
  }

  /** The first row `process` writes for an object it enters. */
  function OwnRow(doc: Doc, id: ObjId, indent: nat, isLast: bool, processed: set<int>): Row
    requires WellFormed(doc) && id in doc.objects
  {
    Row(FormatLabel(doc.objects[id].caption, indent, isLast),
        VolumeCell(Measure(doc.objects[Target(doc, id)].shape, processed).1))
  }

  /** The growth of the state across a step of the walk: nothing is
      forgotten, rows and counted hashes are only appended, and there is
      one new row per newly visited object. */
  predicate Grows(st: State, st': State)
  {
    && st.visited <= st'.visited
    && st.processed <= st'.processed
    && |st.rows| <= |st'.rows|
    && st'.rows[..|st.rows|] == st.rows
    && |st.counted| <= |st'.counted|
    && st'.counted[..|st.counted|] == st.counted
    && |st'.rows| - |st.rows| == |st'.visited| - |st.visited|
  }

  lemma GrowsTransitive(a: State, b: State, c: State)
    requires Grows(a, b) && Grows(b, c)
    ensures Grows(a, c)
  {
    assert c.rows[..|a.rows|] == c.rows[..|b.rows|][..|a.rows|];
    assert c.counted[..|a.counted|] == c.counted[..|b.counted|][..|a.counted|];
  }

  /** A hash not measured before keeps a list of distinct measured hashes
      distinct when appended. */
  lemma AppendFresh(counted: seq<int>, processed: set<int>, h: int)
    requires Distinct(counted) && Elements(counted) <= processed && h !in processed
    ensures Distinct(counted + [h]) && Elements(counted + [h]) <= processed + {h}
  {
    assert Elements(counted + [h]) == Elements(counted) + {h};
  }

  /** Visiting one more object of the document leaves fewer to visit. */
  lemma RemainingShrinks<T>(all: set<T>, visited: set<T>, x: T)
    requires x in all && x !in visited
    ensures |all - (visited + {x})| < |all - visited|
  {
    assert all - (visited + {x}) == (all - visited) - {x};
  }

  /** Rows and counted hashes already written stay where they are. */
  lemma GrowsKeepsEntries(st: State, st': State, r: nat, c: nat)
    requires Grows(st, st')
    ensures r < |st.rows| ==> st'.rows[r] == st.rows[r]
    ensures c < |st.counted| ==> st'.counted[c] == st.counted[c]
  {
    if r < |st.rows| {
      assert st'.rows[r] == st'.rows[..|st.rows|][r];
    }
    if c < |st.counted| {
      assert st'.counted[c] == st'.counted[..|st.counted|][c];
    }
  }

  /** The first half of `process` for an object it enters: mark it
      visited, measure the target's shape and write the object's own row. */
  function Enter(doc: Doc, id: ObjId, indent: nat, isLast: bool, st: State): (st': State)
    requires WellFormed(doc) && id in doc.objects && Sound(doc, st) && id !in st.visited
    ensures Sound(doc, st') && Grows(st, st')
    ensures st'.visited == st.visited + {id}
    ensures st'.rows == st.rows + [OwnRow(doc, id, indent, isLast, st.processed)]
    ensures var s := doc.objects[Target(doc, id)].shape;
      OwnRow(doc, id, indent, isLast, st.processed).volume.Some? ==>
        s.Some? && s.value.hash !in st.processed && st'.counted == st.counted + [s.value.hash]
    ensures OwnRow(doc, id, indent, isLast, st.processed).volume.None? ==> st'.counted == st.counted
  {
    var shape := doc.objects[Target(doc, id)].shape;
    var m := Measure(shape, st.processed);
    var row := OwnRow(doc, id, indent, isLast, st.processed);
    var counted := if row.volume.Some? then st.counted + [shape.value.hash] else st.counted;
    assert m.0 <= Hashes(doc) by {
      if shape.Some? {
        assert shape.value.hash in Hashes(doc);
      }
    }
    assert Distinct(counted) && Elements(counted) <= m.0 by {
      if row.volume.Some? {
        AppendFresh(st.counted, st.processed, shape.value.hash);
      }
    }
    MeasuredAppend(st.rows, [row]);
    State(st.visited + {id}, m.0, counted, st.rows + [row])
  }

  /** process: skip an object already visited or filtered out; otherwise
      mark it visited, write its row (counting the volume of a shape not
      measured before) and walk its children one level deeper, flagging
      the last. */
  function Process(doc: Doc, id: ObjId, indent: nat, isLast: bool, st: State): (st': State)
    requires WellFormed(doc) && id in doc.objects && Sound(doc, st)
    ensures Sound(doc, st') && Grows(st, st')
    ensures id in st.visited || ShouldSkip(doc.objects[id]) ==> st' == st
    ensures id !in st.visited && !ShouldSkip(doc.objects[id]) ==>
      && id in st'.visited
      && |st'.rows| > |st.rows|
      && st'.rows[|st.rows|] == OwnRow(doc, id, indent, isLast, st.processed)
      && (var s := doc.objects[Target(doc, id)].shape; s.Some? && !s.value.isNull ==> s.value.hash in st'.processed)
      && (OwnRow(doc, id, indent, isLast, st.processed).volume.Some? ==>
            var s := doc.objects[Target(doc, id)].shape;
            s.Some? && s.value.hash !in st.processed &&
            |st'.counted| > |st.counted| && st'.counted[|st.counted|] == s.value.hash)
    decreases |doc.objects.Keys - st.visited|, 0, 0
  {
    if id in st.visited || ShouldSkip(doc.objects[id]) then st
    else
      var entered := Enter(doc, id, indent, isLast, st);
      RemainingShrinks(doc.objects.Keys, st.visited, id);
      var st' := ProcessChildren(doc, Children(doc, Target(doc, id)), 0, indent + 1, true, entered);
      GrowsTransitive(st, entered, st');
      EnteredRows(doc, id, indent, isLast, st, st');
      st'
  }

  /** Whatever follows the entry of an object keeps its own row at the
      position where it was written, and its counted hash likewise. */
  lemma EnteredRows(doc: Doc, id: ObjId, indent: nat, isLast: bool, st: State, st': State)
    requires WellFormed(doc) && id in doc.objects && Sound(doc, st) && id !in st.visited
    requires Grows(Enter(doc, id, indent, isLast, st), st')
    ensures id in st'.visited
    ensures |st'.rows| > |st.rows| && st'.rows[|st.rows|] == OwnRow(doc, id, indent, isLast, st.processed)
    ensures var s := doc.objects[Target(doc, id)].shape; s.Some? && !s.value.isNull ==> s.value.hash in st'.processed
    ensures OwnRow(doc, id, indent, isLast, st.processed).volume.Some? ==>
      var s := doc.objects[Target(doc, id)].shape;
      s.Some? && s.value.hash !in st.processed &&
      |st'.counted| > |st.counted| && st'.counted[|st.counted|] == s.value.hash
  {
    var entered := Enter(doc, id, indent, isLast, st);
    GrowsKeepsEntries(entered, st', |st.rows|, |st.counted|);
  }

  /** The loop over children: child i at the given indent, flagged last
      when it is the final child and `flagLast` holds (the walk over all
      objects of a document without a root flags none). */
  function ProcessChildren(doc: Doc, children: seq<ObjId>, i: nat, indent: nat, flagLast: bool, st: State): (st': State)
    requires WellFormed(doc) && i <= |children| && Sound(doc, st)
    requires forall c :: c in children ==> c in doc.objects
    ensures Sound(doc, st') && Grows(st, st')
    decreases |doc.objects.Keys - st.visited|, 1, |children| - i
  {
    if i == |children| then st
    else
      var next := Process(doc, children[i], indent, flagLast && i == |children| - 1, st);
      SubsetCardinality(doc.objects.Keys - next.visited, doc.objects.Keys - st.visited);
      var st' := ProcessChildren(doc, children, i + 1, indent, flagLast, next);
      GrowsTransitive(st, next, st');
      st'
  }

  /** The state after the first i children of a loop have been processed. */
  function WalkUpTo(doc: Doc, children: seq<ObjId>, i: nat, indent: nat, flagLast: bool, st: State): (st': State)
    requires WellFormed(doc) && i <= |children| && Sound(doc, st)
    requires forall c :: c in children ==> c in doc.objects
    ensures Sound(doc, st') && Grows(st, st')
  {
    if i == 0 then st
    else
      var before := WalkUpTo(doc, children, i - 1, indent, flagLast, st);
      var st' := Process(doc, children[i - 1], indent, flagLast && i - 1 == |children| - 1, before);
      GrowsTransitive(st, before, st');
      st'
  }

  /** The loop is the first i children followed by the rest. */
  lemma {:induction false} ProcessChildrenSplit(doc: Doc, children: seq<ObjId>, i: nat, indent: nat, flagLast: bool, st: State)
    requires WellFormed(doc) && i <= |children| && Sound(doc, st)
    requires forall c :: c in children ==> c in doc.objects
    ensures ProcessChildren(doc, children, 0, indent, flagLast, st)
         == ProcessChildren(doc, children, i, indent, flagLast, WalkUpTo(doc, children, i, indent, flagLast, st))
  {
    if i > 0 {
      ProcessChildrenSplit(doc, children, i - 1, indent, flagLast, st);
    }
  }

  /** Children are walked in order, one level deeper, only the last one
      flagged last: for every child i of an entered object, once the
      children before it are done, the next row written is child i's own
      row (if it is entered at all). */
  lemma ChildrenInOrder(doc: Doc, id: ObjId, indent: nat, isLast: bool, st: State, i: nat)
    requires WellFormed(doc) && id in doc.objects && Sound(doc, st)
    requires id !in st.visited && !ShouldSkip(doc.objects[id])
    requires i < |Children(doc, Target(doc, id))|
    ensures var cs := Children(doc, Target(doc, id));
      var mid := WalkUpTo(doc, cs, i, indent + 1, true, Enter(doc, id, indent, isLast, st));
      var st' := Process(doc, id, indent, isLast, st);
      && Grows(mid, st')
      && (cs[i] !in mid.visited && !ShouldSkip(doc.objects[cs[i]]) ==>
            |st'.rows| > |mid.rows| &&
            st'.rows[|mid.rows|] == OwnRow(doc, cs[i], indent + 1, i == |cs| - 1, mid.processed))
  {
    var cs := Children(doc, Target(doc, id));
    var entered := Enter(doc, id, indent, isLast, st);
    var mid := WalkUpTo(doc, cs, i, indent + 1, true, entered);
    ProcessChildrenSplit(doc, cs, i, indent + 1, true, entered);
    var st' := Process(doc, id, indent, isLast, st);
    assert st' == ProcessChildren(doc, cs, i, indent + 1, true, mid);
    var next := Process(doc, cs[i], indent + 1, true && i == |cs| - 1, mid);
    assert st' == ProcessChildren(doc, cs, i + 1, indent + 1, true, next);
    GrowsTransitive(mid, next, st');
    if cs[i] !in mid.visited && !ShouldSkip(doc.objects[cs[i]]) {
      assert st'.rows[|mid.rows|] == st'.rows[..|next.rows|][|mid.rows|];
    }
  }

  const RootName := "WindTurbine"

  /** Position j holds the first object, from position k on, that
      satisfies p. */
  predicate FirstAt(doc: Doc, p: Obj -> bool, k: nat, j: nat)
    requires WellFormed(doc)
  {
    && k <= j < |doc.order|
    && p(doc.objects[doc.order[j]])
    && forall i :: k <= i < j ==> !p(doc.objects[doc.order[i]])
  }

  /** The first object of the document, from position k on, that satisfies p. */
  function FirstWhere(doc: Doc, p: Obj -> bool, k: nat): (r: Option<ObjId>)
    requires WellFormed(doc) && k <= |doc.order|
    ensures r.Some? ==> r.value in doc.objects && p(doc.objects[r.value])
    ensures r.Some? ==> exists j: nat :: FirstAt(doc, p, k, j) && doc.order[j] == r.value
    ensures r.None? <==> forall j :: k <= j < |doc.order| ==> !p(doc.objects[doc.order[j]])
    decreases |doc.order| - k
  {
    if k == |doc.order| then None
    else if p(doc.objects[doc.order[k]]) then
      assert FirstAt(doc, p, k, k);
      Some(doc.order[k])
    else
      var r := FirstWhere(doc, p, k + 1);
      assert r.Some? ==> exists j: nat :: FirstAt(doc, p, k, j) && doc.order[j] == r.value by {
        if r.Some? {
          var j: nat :| FirstAt(doc, p, k + 1, j) && doc.order[j] == r.value;
          assert FirstAt(doc, p, k, j);
        }
      }
      r
  }

  /** The root: the object named WindTurbine (doc.getObject), or else the
      first object labelled WindTurbine, or none. */
  function Root(doc: Doc): (r: Option<ObjId>)
    requires WellFormed(doc)
    ensures r.Some? ==> r.value in doc.objects
    ensures (exists id :: id in doc.objects && doc.objects[id].name == RootName) ==>
      r.Some? && doc.objects[r.value].name == RootName
    ensures (forall id :: id in doc.objects ==> doc.objects[id].name != RootName) && r.Some? ==>
      && doc.objects[r.value].caption == RootName
      && exists j: nat :: FirstAt(doc, (o: Obj) => o.caption == RootName, 0, j) && doc.order[j] == r.value
    ensures r.None? <==> forall id :: id in doc.objects ==> doc.objects[id].name != RootName && doc.objects[id].caption != RootName
  {
    var named := FirstWhere(doc, (o: Obj) => o.name == RootName, 0);
    if named.Some? then named else FirstWhere(doc, (o: Obj) => o.caption == RootName, 0)
  }

  /** The export: the walk from the root, or over all objects flat when
      there is no root. Its rows are the CSV rows; `counted` lists the shape
      hash behind each row that has a volume. */
  function Export(doc: Doc): (st: State)
    requires WellFormed(doc)
    ensures |st.rows| <= |doc.objects|
    ensures Distinct(st.counted) && |st.counted| == Measured(st.rows)
    ensures Elements(st.counted) <= Hashes(doc)
    ensures Measured(st.rows) <= |Hashes(doc)|
  {
    var empty := State({}, {}, [], []);
    var st := match Root(doc)
      case Some(root) => Process(doc, root, 0, true, empty)
      case None => ProcessChildren(doc, doc.order, 0, 0, false, empty);
    SubsetCardinality(st.visited, doc.objects.Keys);
    DistinctCardinality(st.counted);
    SubsetCardinality(Elements(st.counted), Hashes(doc));
    st
  }

  /** An App::Link to a shape already measured gets a row whose volume
      cell is empty. */
  lemma LinkToMeasuredShape(doc: Doc, id: ObjId, indent: nat, isLast: bool, st: State)
    requires WellFormed(doc) && id in doc.objects && Sound(doc, st)
    requires id !in st.visited && !ShouldSkip(doc.objects[id])
    requires doc.objects[id].typeId == LinkType && doc.objects[id].linked.Some?
    requires var s := doc.objects[doc.objects[id].linked.value].shape; s.Some? && s.value.hash in st.processed
    ensures var st' := Process(doc, id, indent, isLast, st);
      st'.rows[|st.rows|] == Row(FormatLabel(doc.objects[id].caption, indent, isLast), None)
  {
  }

  /** A shape measured once is not measured again: two objects with the
      same shape hash, entered one after the other, give the second an
      empty volume cell. */
  lemma SecondCopyEmpty(doc: Doc, a: ObjId, b: ObjId, st: State)
    requires WellFormed(doc) && a in doc.objects && b in doc.objects && Sound(doc, st)
    requires doc.objects[Target(doc, a)].shape.Some? && doc.objects[Target(doc, b)].shape.Some?
    requires doc.objects[Target(doc, a)].shape.value.hash == doc.objects[Target(doc, b)].shape.value.hash
    requires !doc.objects[Target(doc, a)].shape.value.isNull
    requires a !in st.visited && !ShouldSkip(doc.objects[a])
    ensures var st1 := Process(doc, a, 0, false, st);
      b in doc.objects && Sound(doc, st1) &&
      (b !in st1.visited && !ShouldSkip(doc.objects[b]) ==>
        OwnRow(doc, b, 0, false, st1.processed).volume.None?)
  {
  }

  /** A leaf (nothing in its group) that is entered writes exactly one row. */
  lemma LeafOneRow(doc: Doc, id: ObjId, indent: nat, isLast: bool, st: State)
    requires WellFormed(doc) && id in doc.objects && Sound(doc, st)
    requires id !in st.visited && !ShouldSkip(doc.objects[id]) && Children(doc, Target(doc, id)) == []
    ensures Process(doc, id, indent, isLast, st).rows == st.rows + [OwnRow(doc, id, indent, isLast, st.processed)]
  {
  }
}
