/** The two tables of app_name/models.py: `FieldInfo` (one row per field,
    unique `file_name`, auto-assigned `file_index`, listed by ascending
    `file_index`) and `IrregularBlock` (one row per track point, holding a
    foreign key to `FieldInfo.file_name` with cascading delete), kept as
    mutable state in the class `FieldStore`. */
module Models {
  import opened Basics
  import opened Text

  /** `FieldInfo.file_name` is a `CharField(max_length=100)`. */
  const MaxNameLength: nat := 100

  /** The columns of one `IrregularBlock` row, as the upload builds them. */
  datatype TrackRecord = TrackRecord(
    pointIndex: int,
    gpsTime: DateTime,
    longitude: PyFloat,
    latitude: PyFloat,
    x: PyFloat,
    y: PyFloat,
    velocity: PyFloat,
    yaw: PyFloat,
    state: bool,
    amplitude: PyFloat,
    depth: int,
    depthValue: int)

  datatype FieldInfo = FieldInfo(fileIndex: nat, fileName: string)

  /** A stored `IrregularBlock`: its auto-assigned `id`, the `file_name` of
      the field it belongs to, and its columns. */
  datatype TrackPoint = TrackPoint(id: nat, fieldName: string, data: TrackRecord)

  /** Why the database refuses to insert a `FieldInfo`. */
  datatype StoreError = NameTooLong | DuplicateName

  // ---------------------------------------------------------------------
  // `__str__`

  /** `str(FieldInfo)`: "{file_index} - {file_name}". */
  function FieldLabel(f: FieldInfo): string {
    NatToString(f.fileIndex) + " - " + f.fileName
  }

  function ReadFieldLabel(s: string): Option<FieldInfo> {
    match ReadNat(s)
    case Some((n, rest)) =>
      if StartsWith(rest, " - ") then Some(FieldInfo(n, rest[3..])) else None
    case None => None
  }

  /** The label names the field unambiguously, whatever its name holds. */
  lemma FieldLabelRoundTrip(f: FieldInfo)
    ensures ReadFieldLabel(FieldLabel(f)) == Some(f)
  {
    var rest := " - " + f.fileName;
    assert FieldLabel(f) == NatToString(f.fileIndex) + rest;
    ReadNatRoundTrip(f.fileIndex, rest);
    assert rest[..3] == " - " && rest[3..] == f.fileName;
  }

  const BlockLabelPrefix: string := "地块 "

  /** `str(IrregularBlock)`: "地块 {point_index}". */
  function BlockLabel(r: TrackRecord): string {
    BlockLabelPrefix + IntToString(r.pointIndex)
  }

  function ReadBlockLabel(s: string): Option<int> {
    if StartsWith(s, BlockLabelPrefix) then
      match ReadInt(s[|BlockLabelPrefix|..])
      case Some((i, rest)) => if rest == [] then Some(i) else None
      case None => None
    else None
  }

  lemma BlockLabelRoundTrip(r: TrackRecord)
    ensures ReadBlockLabel(BlockLabel(r)) == Some(r.pointIndex)
  {
    var s := BlockLabel(r);
    assert s[..|BlockLabelPrefix|] == BlockLabelPrefix;
    assert s[|BlockLabelPrefix|..] == IntToString(r.pointIndex) + [];
    ReadIntRoundTrip(r.pointIndex, []);
  }

  // ---------------------------------------------------------------------
  // Cascading removal, as filters over the tables

  /** The fields whose name is not `name`, in their listing order. */
  function FieldsWithout(fs: seq<FieldInfo>, name: string): (r: seq<FieldInfo>)
    ensures |r| <= |fs|
    ensures forall f :: f in r <==> f in fs && f.fileName != name
  {
    if fs == [] then []
    else if fs[0].fileName == name then FieldsWithout(fs[1..], name)
    else [fs[0]] + FieldsWithout(fs[1..], name)
  }

  /** The track points that do not reference `name`, in their order. */
  function PointsWithout(ps: seq<TrackPoint>, name: string): (r: seq<TrackPoint>)
    ensures |r| <= |ps|
    ensures forall p :: p in r <==> p in ps && p.fieldName != name
  {
    if ps == [] then []
    else if ps[0].fieldName == name then PointsWithout(ps[1..], name)
    else [ps[0]] + PointsWithout(ps[1..], name)
  }

  /** The track points that reference `name`, in their order. */
  function PointsOf(ps: seq<TrackPoint>, name: string): (r: seq<TrackPoint>)
    ensures |r| <= |ps|
    ensures forall p :: p in r <==> p in ps && p.fieldName == name
  {
    if ps == [] then []
    else if ps[0].fieldName == name then [ps[0]] + PointsOf(ps[1..], name)
    else PointsOf(ps[1..], name)
  }

  /** Every point lands on exactly one side of a cascade. */
  lemma {:induction false} CascadePartitions(ps: seq<TrackPoint>, name: string)
    ensures |PointsWithout(ps, name)| + |PointsOf(ps, name)| == |ps|
  {
    if ps != [] {
      CascadePartitions(ps[1..], name);
    }
  }

  /** When no point references `name`, the cascade removes nothing. */
  lemma {:induction false} PointsWithoutAbsent(ps: seq<TrackPoint>, name: string)
    requires forall i | 0 <= i < |ps| :: ps[i].fieldName != name
    ensures PointsWithout(ps, name) == ps
  {
    if ps != [] {
      PointsWithoutAbsent(ps[1..], name);
    }
  }

  lemma {:induction false} FieldsWithoutAbsent(fs: seq<FieldInfo>, name: string)
    requires forall i | 0 <= i < |fs| :: fs[i].fileName != name
    ensures FieldsWithout(fs, name) == fs
  {
    if fs != [] {
      FieldsWithoutAbsent(fs[1..], name);
    }
  }

  /** Removal keeps the listing in ascending `file_index` order. */
  lemma {:induction false} FieldsWithoutSorted(fs: seq<FieldInfo>, name: string)
    requires IndexAscending(fs)
    ensures IndexAscending(FieldsWithout(fs, name))
  {
    if fs != [] {
      FieldsWithoutSorted(fs[1..], name);
      if fs[0].fileName != name {
        var t := FieldsWithout(fs[1..], name);
        forall g | g in t ensures fs[0].fileIndex < g.fileIndex {
          var k :| 0 <= k < |fs[1..]| && fs[1..][k] == g;
          assert fs[k + 1] == g;
        }
        ConsAscending(fs[0], t);
      }
    }
  }

  lemma ConsAscending(f: FieldInfo, t: seq<FieldInfo>)
    requires IndexAscending(t)
    requires forall g | g in t :: f.fileIndex < g.fileIndex
    ensures IndexAscending([f] + t)
  {
    var r := [f] + t;
    forall i, j | 0 <= i < j < |r| ensures r[i].fileIndex < r[j].fileIndex {
      assert r[j] == t[j - 1];
      if i > 0 {
        assert r[i] == t[i - 1];
      } else {
        assert r[j] in t;
      }
    }
  }

  lemma {:induction false} PointsWithoutSorted(ps: seq<TrackPoint>, name: string)
    requires IdAscending(ps)
    ensures IdAscending(PointsWithout(ps, name))
  {
    if ps != [] {
      PointsWithoutSorted(ps[1..], name);
      if ps[0].fieldName != name {
        var t := PointsWithout(ps[1..], name);
        forall q | q in t ensures ps[0].id < q.id {
          var k :| 0 <= k < |ps[1..]| && ps[1..][k] == q;
          assert ps[k + 1] == q;
        }
        ConsIdAscending(ps[0], t);
      }
    }
  }

  lemma ConsIdAscending(p: TrackPoint, t: seq<TrackPoint>)
    requires IdAscending(t)
    requires forall q | q in t :: p.id < q.id
    ensures IdAscending([p] + t)
  {
    var r := [p] + t;
    forall i, j | 0 <= i < j < |r| ensures r[i].id < r[j].id {
      assert r[j] == t[j - 1];
      if i > 0 {
        assert r[i] == t[i - 1];
      } else {
        assert r[j] in t;
      }
    }
  }

  predicate IndexAscending(fs: seq<FieldInfo>) {
    forall i, j | 0 <= i < j < |fs| :: fs[i].fileIndex < fs[j].fileIndex
  }

  predicate IdAscending(ps: seq<TrackPoint>) {
    forall i, j | 0 <= i < j < |ps| :: ps[i].id < ps[j].id
  }

  function NamesOf(fs: seq<FieldInfo>): set<string> {
    set f | f in fs :: f.fileName
  }

  /** No two fields share a name. With ascending indices (no repeated row)
      this is the `unique=True` constraint. */
  predicate NamesUnique(fs: seq<FieldInfo>) {
    forall f, g | f in fs && g in fs && f.fileName == g.fileName :: f == g
  }

  lemma NamesWithout(fs: seq<FieldInfo>, name: string)
    ensures NamesOf(FieldsWithout(fs, name)) == NamesOf(fs) - {name}
  {
    var r := FieldsWithout(fs, name);
    forall n | n in NamesOf(fs) - {name} ensures n in NamesOf(r) {
      var g :| g in fs && g.fileName == n;
      assert g in r;
    }
  }

  /** Appending a field with a fresh name and a larger index keeps the
      table's key constraints. */
  lemma AppendKeepsKeys(fs: seq<FieldInfo>, f: FieldInfo)
    requires IndexAscending(fs) && NamesUnique(fs)
    requires forall g | g in fs :: g.fileIndex < f.fileIndex
    requires f.fileName !in NamesOf(fs)
    ensures IndexAscending(fs + [f]) && NamesUnique(fs + [f])
  {
    var r := fs + [f];
    forall i, j | 0 <= i < j < |r| ensures r[i].fileIndex < r[j].fileIndex {
      assert r[i] == fs[i];
      if j < |fs| {
        assert r[j] == fs[j];
      } else {
        assert fs[i] in fs;
      }
    }
    assert forall g | g in fs :: g.fileName in NamesOf(fs);
  }

  lemma NamesAppend(fs: seq<FieldInfo>, f: FieldInfo)
    ensures NamesOf(fs + [f]) == NamesOf(fs) + {f.fileName}
  {
    forall n | n in NamesOf(fs) ensures n in NamesOf(fs + [f]) {
      var g :| g in fs && g.fileName == n;
      assert g in fs + [f];
    }
    assert f in fs + [f];
  }

  /** The rows `bulk_create` inserts for `records`, with consecutive ids from `firstId`. */
  function Stamped(records: seq<TrackRecord>, name: string, firstId: nat): (r: seq<TrackPoint>)
    ensures |r| == |records|
    ensures forall i | 0 <= i < |r| :: r[i].fieldName == name && r[i].data == records[i]
  {
    seq(|records|, i requires 0 <= i < |records| => TrackPoint(firstId + i, name, records[i]))
  }

  // ---------------------------------------------------------------------
  // The two tables

  class FieldStore {
    var fields: seq<FieldInfo>
    var points: seq<TrackPoint>
    var nextFieldIndex: nat
    var nextPointId: nat

    function Names(): set<string>
      reads this
    {
      NamesOf(fields)
    }

    /** Unique names within the length limit, ascending indices, ascending
        point ids, and every track point referencing an existing field. */
    ghost predicate Valid()
      reads this
    {
      && 1 <= nextFieldIndex && 1 <= nextPointId
      && IndexAscending(fields) && NamesUnique(fields)
      && (forall f | f in fields :: 1 <= f.fileIndex < nextFieldIndex && |f.fileName| <= MaxNameLength)
      && IdAscending(points)
      && (forall p | p in points :: p.id < nextPointId && p.fieldName in Names())
    }

    /** `FieldInfo.objects.all()`: every field, in ascending `file_index`
        order. The table is kept in that order, so it is listed as stored. */
    function Listing(): (r: seq<FieldInfo>)
      reads this
      requires Valid()
      ensures IndexAscending(r)
      ensures forall f :: f in r <==> f in fields
      ensures forall f | f in r :: f.fileName in Names()
    {
      fields
    }

    constructor ()
      ensures Valid()
      ensures fields == [] && points == []
      ensures nextFieldIndex == 1 && nextPointId == 1
    {
      fields, points := [], [];
      nextFieldIndex, nextPointId := 1, 1;
    }

    /** `FieldInfo.objects.create(file_name=name)`: the database refuses a
        name over the length limit or one already taken. */
    method CreateField(name: string) returns (r: Result<FieldInfo, StoreError>)
      requires Valid()
      modifies this
      ensures Valid()
      ensures r.Err? <==> |name| > MaxNameLength || name in old(Names())
      ensures r.Err? ==> r.error == (if |name| > MaxNameLength then NameTooLong else DuplicateName)
      ensures r.Err? ==> fields == old(fields) && nextFieldIndex == old(nextFieldIndex)
      ensures r.Ok? ==>
                && r.value == FieldInfo(old(nextFieldIndex), name)
                && fields == old(fields) + [r.value]
                && nextFieldIndex == old(nextFieldIndex) + 1
      ensures Names() == old(Names()) + (if r.Ok? then {name} else {})
      ensures points == old(points) && nextPointId == old(nextPointId)
    {
      if |name| > MaxNameLength {
        return Err(NameTooLong);
      }
      if name in Names() {
        return Err(DuplicateName);
      }
      var f := FieldInfo(nextFieldIndex, name);
      NamesAppend(fields, f);
      AppendKeepsKeys(fields, f);
      fields := fields + [f];
      nextFieldIndex := nextFieldIndex + 1;
      r := Ok(f);
    }

    /** `IrregularBlock.objects.bulk_create(objs)` for records of field `name`;
        all rows are inserted or none (the caller models a refused write). */
    method BulkCreate(name: string, records: seq<TrackRecord>)
      requires Valid() && name in Names()
      modifies this
      ensures Valid()
      ensures points == old(points) + Stamped(records, name, old(nextPointId))
      ensures nextPointId == old(nextPointId) + |records|
      ensures fields == old(fields) && nextFieldIndex == old(nextFieldIndex)
    {
      var added := Stamped(records, name, nextPointId);
      assert forall p | p in added :: nextPointId <= p.id < nextPointId + |records| && p.fieldName == name;
      points := points + added;
      nextPointId := nextPointId + |records|;
    }

    /** `FieldInfo.objects.get(file_name=name).delete()`: removes the field and,
        by the cascading foreign key, every track point referencing it;
        `found` is false, and nothing changes, when no field has that name. */
    method DeleteField(name: string) returns (found: bool)
      requires Valid()
      modifies this
      ensures Valid()
      ensures found <==> name in old(Names())
      ensures fields == FieldsWithout(old(fields), name)
      ensures points == PointsWithout(old(points), name)
      ensures Names() == old(Names()) - {name}
      ensures PointsOf(points, name) == []
      ensures !found ==> fields == old(fields) && points == old(points)
      ensures nextFieldIndex == old(nextFieldIndex) && nextPointId == old(nextPointId)
    {
      found := name in Names();
      if !found {
        forall i | 0 <= i < |fields| ensures fields[i].fileName != name {
          assert fields[i] in fields;
        }
        forall i | 0 <= i < |points| ensures points[i].fieldName != name {
          assert points[i] in points;
        }
        FieldsWithoutAbsent(fields, name);
        PointsWithoutAbsent(points, name);
        NoPointsOf(points, name);
        return;
      }
      FieldsWithoutSorted(fields, name);
      PointsWithoutSorted(points, name);
      NamesWithout(fields, name);
      fields := FieldsWithout(fields, name);
      points := PointsWithout(points, name);
      forall i | 0 <= i < |points| ensures points[i].fieldName != name {
        assert points[i] in points;
      }
      NoPointsOf(points, name);
    }
  }

  lemma {:induction false} NoPointsOf(ps: seq<TrackPoint>, name: string)
    requires forall i | 0 <= i < |ps| :: ps[i].fieldName != name
    ensures PointsOf(ps, name) == []
  {
    if ps != [] {
      NoPointsOf(ps[1..], name);
    }
  }
}
