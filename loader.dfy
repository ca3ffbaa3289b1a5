/** The initial-condition loader's record policy. The file is opened, read
    and parsed as JSON outside the model; what reaches the model is either
    the failure of one of those steps or the list of records already parsed,
    each field present or not (a missing key, or a value of the wrong kind,
    reads as absent). A record with any field absent is skipped; the others
    become bodies, in their original order. */
module Loader {
  import opened Vectors

  datatype Option<T> = None | Some(value: T)

  datatype RawTriple = RawTriple(x: Option<real>, y: Option<real>, z: Option<real>)

  datatype RawRecord = RawRecord(name: Option<string>, position: RawTriple, velocity: RawTriple, mass: Option<real>)

  datatype SourceError = OpenFailed | ReadFailed | ParseFailed

  /** A JSON document whose top level is not an array has no members, so it
      reaches the model as `Parsed([])`. */
  datatype Source = Unavailable(error: SourceError) | Parsed(records: seq<RawRecord>)

  /** The arguments of `Body::new` taken from one valid record. */
  datatype BodyInit = BodyInit(name: string, position: Vec3, velocity: Vec3, mass: real)

  ghost predicate CompleteTriple(t: RawTriple) {
    t.x.Some? && t.y.Some? && t.z.Some?
  }

  ghost predicate Complete(r: RawRecord) {
    r.name.Some? && CompleteTriple(r.position) && CompleteTriple(r.velocity) && r.mass.Some?
  }

  function DecodeTriple(t: RawTriple): Option<Vec3> {
    if t.x.Some? && t.y.Some? && t.z.Some? then Some(Vec3(t.x.value, t.y.value, t.z.value)) else None
  }

  /** The checks of one loop iteration, in the order `parse_json` makes
      them: name, then position, then velocity, then mass. A record yields a body exactly when
      every field is present, and the body carries the record's values. */
  function DecodeRecord(r: RawRecord): (d: Option<BodyInit>)
    ensures d.Some? <==> Complete(r)
    ensures d.Some? ==> d.value.name == r.name.value && d.value.mass == r.mass.value
    ensures d.Some? ==> d.value.position == Vec3(r.position.x.value, r.position.y.value, r.position.z.value)
    ensures d.Some? ==> d.value.velocity == Vec3(r.velocity.x.value, r.velocity.y.value, r.velocity.z.value)
  {
    if r.name.None? then None
    else
      match DecodeTriple(r.position)
      case None => None
      case Some(position) =>
        match DecodeTriple(r.velocity)
        case None => None
        case Some(velocity) =>
          if r.mass.None? then None
          else Some(BodyInit(r.name.value, position, velocity, r.mass.value))
  }

  /** The bodies the record loop adds, in order: at most one per record. */
  function Accepted(rs: seq<RawRecord>): (r: seq<BodyInit>)
    ensures |r| <= |rs|
  {
    if rs == [] then []
    else
      var front := Accepted(rs[..|rs| - 1]);
      match DecodeRecord(rs[|rs| - 1])
      case None => front
      case Some(d) => front + [d]
  }

  /** The bodies a whole load adds: none at all when the source failed. */
  function Loaded(src: Source): seq<BodyInit> {
    match src
    case Unavailable(_) => []
    case Parsed(rs) => Accepted(rs)
  }

  /** Records are handled independently and in order: what a list of
      records yields is what its first part yields followed by what the
      rest yields. */
  lemma {:induction false} AcceptedAppend(a: seq<RawRecord>, b: seq<RawRecord>)
    ensures Accepted(a + b) == Accepted(a) + Accepted(b)
    decreases |b|
  {
    if b == [] {
      assert a + b == a;
    } else {
      var b' := b[..|b| - 1];
      assert (a + b)[..|a + b| - 1] == a + b';
      AcceptedAppend(a, b');
    }
  }

  /** A body is added for a value exactly when some record decodes to it:
      nothing is invented and no valid record is lost. */
  lemma {:induction false} AcceptedMembers(rs: seq<RawRecord>, d: BodyInit)
    ensures d in Accepted(rs) <==> exists i :: 0 <= i < |rs| && DecodeRecord(rs[i]) == Some(d)
  {
    if rs != [] {
      var front := rs[..|rs| - 1];
      AcceptedMembers(front, d);
      if exists i :: 0 <= i < |front| && DecodeRecord(front[i]) == Some(d) {
        var i :| 0 <= i < |front| && DecodeRecord(front[i]) == Some(d);
        assert DecodeRecord(rs[i]) == Some(d);
      }
      if exists i :: 0 <= i < |rs| && DecodeRecord(rs[i]) == Some(d) {
        var i :| 0 <= i < |rs| && DecodeRecord(rs[i]) == Some(d);
        if i < |front| {
          assert DecodeRecord(front[i]) == Some(d);
        }
      }
    }
  }

  /** At most one body per record, and exactly one per record when all of
      them are valid, each carrying its record's values. */
  lemma {:induction false} AcceptedAllValid(rs: seq<RawRecord>)
    requires forall i :: 0 <= i < |rs| ==> Complete(rs[i])
    ensures |Accepted(rs)| == |rs|
    ensures forall i :: 0 <= i < |rs| ==> Some(Accepted(rs)[i]) == DecodeRecord(rs[i])
  {
    if rs != [] {
      AcceptedAllValid(rs[..|rs| - 1]);
    }
  }

  /** Three records, the second without a mass: exactly the first and the
      third become bodies, in that order. */
  lemma MissingMassSkipped(r1: RawRecord, r2: RawRecord, r3: RawRecord)
    requires Complete(r1) && Complete(r3)
    requires r2.mass.None?
    ensures Accepted([r1, r2, r3]) == [DecodeRecord(r1).value, DecodeRecord(r3).value]
  {
    var d1, d3 := DecodeRecord(r1).value, DecodeRecord(r3).value;
    assert [r1][..0] == [];
    assert Accepted([r1]) == [d1];
    assert [r1, r2][..1] == [r1];
    assert Accepted([r1, r2]) == [d1];
    assert [r1, r2, r3][..2] == [r1, r2];
    assert Accepted([r1, r2, r3]) == [d1] + [d3];
  }
}
