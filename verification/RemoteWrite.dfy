/** The remote-write codec: WriteRequest messages as length-delimited records, walked without
    generated code. Reading functions are the specification; the methods are the loops. */
module RemoteWrite {
  import opened Varint

  datatype Error = Truncated | BadWireType(wt: nat)

  datatype Result<T> = Ok(value: T) | Err(error: Error)

  type int64 = v: int | -0x8000_0000_0000_0000 <= v < 0x8000_0000_0000_0000

  datatype Label = Label(Name: bytes, Value: bytes)

  /** A sample: the 64 bits of its value, and its timestamp in milliseconds. */
  datatype Sample = Sample(bits: uint64, Timestamp: int64)

  datatype TimeSeries = TimeSeries(Labels: seq<Label>, Samples: seq<Sample>)

  /** The number of 64 bits without a sign that has the bits of v, and the other way round. */
  function ToUnsigned(v: int64): (r: uint64)
    ensures (r - v) % TWO64 == 0
  {
    if v < 0 then v + TWO64 else v
  }

  function ToSigned(v: uint64): (r: int64)
    ensures (v - r) % TWO64 == 0
  {
    if v < 0x8000_0000_0000_0000 then v else v - TWO64
  }

  /** The eight bytes of a 64-bit value, lowest first. */
  function PutFixed(v: nat, n: nat): (r: bytes)
    ensures |r| == n
  {
    if n == 0 then [] else [v % 256] + PutFixed(v / 256, n - 1)
  }

  function GetFixed(buf: bytes): nat {
    if buf == [] then 0 else buf[0] + 256 * GetFixed(buf[1..])
  }

  function Pow256(n: nat): nat {
    if n == 0 then 1 else 256 * Pow256(n - 1)
  }

  lemma {:induction false} FixedRoundTrip(v: nat, n: nat)
    requires v < Pow256(n)
    ensures GetFixed(PutFixed(v, n)) == v
  {
    if n > 0 {
      FixedRoundTrip(v / 256, n - 1);
    }
  }

  lemma {:induction false} FixedRange(buf: bytes)
    ensures GetFixed(buf) < Pow256(|buf|)
  {
    if buf != [] {
      FixedRange(buf[1..]);
    }
  }

  lemma Pow256Of8()
    ensures Pow256(8) == TWO64
  {
    assert Pow256(4) == 0x1_0000_0000;
  }

  /** The 64-bit value at the front of buf. */
  function ReadFixed(buf: bytes): uint64
    requires |buf| >= 8
  {
    FixedRange(buf[..8]);
    Pow256Of8();
    GetFixed(buf[..8])
  }

  // --- fields -------------------------------------------------------------------------------------

  datatype Tag = Tag(field: nat, wt: nat, n: nat)

  /** Field number, wire type and length of a tag. */
  function ReadTag(buf: bytes): (r: Result<Tag>)
    ensures r.Ok? ==> 1 <= r.value.n <= |buf| && r.value.wt < 8
  {
    match Uvarint(buf)
    case Short => Err(Truncated)
    case Got(v, n) => Ok(Tag(v / 8, v % 8, n))
  }

  /** A length-delimited message and what follows it. */
  function BytesField(buf: bytes): (r: Result<(bytes, bytes)>)
    ensures r.Ok? ==> |r.value.0| + |r.value.1| < |buf|
  {
    match Uvarint(buf)
    case Short => Err(Truncated)
    case Got(l, n) =>
      if |buf| - n < l then Err(Truncated) else Ok((buf[n..n+l], buf[n+l..]))
  }

  /** What follows a field of the given wire type. */
  function Skip(buf: bytes, wt: nat): (r: Result<bytes>)
    ensures r.Ok? ==> |r.value| <= |buf|
  {
    match wt
    case 0 => (match Uvarint(buf) case Short => Err(Truncated) case Got(_, n) => Ok(buf[n..]))
    case 1 => if |buf| < 8 then Err(Truncated) else Ok(buf[8..])
    case 2 => (match BytesField(buf) case Err(e) => Err(e) case Ok(p) => Ok(p.1))
    case 5 => if |buf| < 4 then Err(Truncated) else Ok(buf[4..])
    case _ => Err(BadWireType(wt))
  }

  // --- messages -----------------------------------------------------------------------------------

  function ReadLabel(buf: bytes, l: Label): Result<Label>
    decreases |buf|
  {
    if buf == [] then Ok(l)
    else match ReadTag(buf)
      case Err(e) => Err(e)
      case Ok(t) =>
        if t.wt != 2 then
          match Skip(buf[t.n..], t.wt)
          case Err(e) => Err(e)
          case Ok(rest) => ReadLabel(rest, l)
        else
          match BytesField(buf[t.n..])
          case Err(e) => Err(e)
          case Ok((v, rest)) =>
            ReadLabel(rest, if t.field == 1 then l.(Name := v) else if t.field == 2 then l.(Value := v) else l)
  }

  /** One field of a sample: what it leaves to read, and the sample with the field filled in. */
  function SampleField(b: bytes, t: Tag, s: Sample): (r: Result<(bytes, Sample)>)
    ensures r.Ok? ==> |r.value.0| <= |b|
  {
    if t.field == 1 && t.wt == 1 then
      if |b| < 8 then Err(Truncated) else Ok((b[8..], s.(bits := ReadFixed(b))))
    else if t.field == 2 && t.wt == 0 then
      match Uvarint(b)
      case Short => Err(Truncated)
      case Got(v, n) => Ok((b[n..], s.(Timestamp := ToSigned(v))))
    else
      match Skip(b, t.wt)
      case Err(e) => Err(e)
      case Ok(rest) => Ok((rest, s))
  }

  function ReadSample(buf: bytes, s: Sample): Result<Sample>
    decreases |buf|
  {
    if buf == [] then Ok(s)
    else match ReadTag(buf)
      case Err(e) => Err(e)
      case Ok(t) =>
        match SampleField(buf[t.n..], t, s)
        case Err(e) => Err(e)
        case Ok((rest, s')) => ReadSample(rest, s')
  }

  function ReadSeries(buf: bytes, ts: TimeSeries): Result<TimeSeries>
    decreases |buf|
  {
    if buf == [] then Ok(ts)
    else match ReadTag(buf)
      case Err(e) => Err(e)
      case Ok(t) =>
        if t.wt != 2 then
          match Skip(buf[t.n..], t.wt)
          case Err(e) => Err(e)
          case Ok(rest) => ReadSeries(rest, ts)
        else
          match BytesField(buf[t.n..])
          case Err(e) => Err(e)
          case Ok((msg, rest)) =>
            if t.field == 1 then
              match ReadLabel(msg, Label([], []))
              case Err(e) => Err(e)
              case Ok(l) => ReadSeries(rest, ts.(Labels := ts.Labels + [l]))
            else if t.field == 2 then
              match ReadSample(msg, Sample(0, 0))
              case Err(e) => Err(e)
              case Ok(s) => ReadSeries(rest, ts.(Samples := ts.Samples + [s]))
            else ReadSeries(rest, ts)
  }

  /** A whole request: the series delivered so far, in order, and the error that ended the walk. */
  datatype Walk = Walk(out: seq<TimeSeries>, err: Result<()>)

  function ReadRequest(buf: bytes, out: seq<TimeSeries>): Walk
    decreases |buf|
  {
    if buf == [] then Walk(out, Ok(()))
    else match ReadTag(buf)
      case Err(e) => Walk(out, Err(e))
      case Ok(t) =>
        if t.field == 1 && t.wt == 2 then
          match BytesField(buf[t.n..])
          case Err(e) => Walk(out, Err(e))
          case Ok((msg, rest)) =>
            match ReadSeries(msg, TimeSeries([], []))
            case Err(e) => Walk(out, Err(e))
            case Ok(ts) => ReadRequest(rest, out + [ts])
        else
          match Skip(buf[t.n..], t.wt)
          case Err(e) => Walk(out, Err(e))
          case Ok(rest) => ReadRequest(rest, out)
  }

  // --- the reader does not look past what it has read --------------------------------------------

  lemma TagPrefix(a: bytes, r: bytes)
    requires ReadTag(a).Ok?
    ensures ReadTag(a + r) == ReadTag(a)
    ensures (a + r)[ReadTag(a).value.n..] == a[ReadTag(a).value.n..] + r
  {
    GetPrefix(a, MAX_LEN, r);
  }

  lemma BytesPrefix(a: bytes, r: bytes)
    requires BytesField(a).Ok?
    ensures BytesField(a + r) == Ok((BytesField(a).value.0, BytesField(a).value.1 + r))
  {
    GetPrefix(a, MAX_LEN, r);
    var n, l := Uvarint(a).n, Uvarint(a).v;
    assert (a + r)[n..n+l] == a[n..n+l] && (a + r)[n+l..] == a[n+l..] + r;
  }

  lemma SkipPrefix(a: bytes, wt: nat, r: bytes)
    requires Skip(a, wt).Ok?
    ensures Skip(a + r, wt) == Ok(Skip(a, wt).value + r)
  {
    match wt
    case 0 => GetPrefix(a, MAX_LEN, r); assert (a + r)[Uvarint(a).n..] == a[Uvarint(a).n..] + r;
    case 1 => assert (a + r)[8..] == a[8..] + r;
    case 2 => BytesPrefix(a, r);
    case 5 => assert (a + r)[4..] == a[4..] + r;
    case _ =>
  }

  lemma {:induction false} LabelPrefix(a: bytes, r: bytes, l: Label)
    requires ReadLabel(a, l).Ok?
    ensures ReadLabel(a + r, l) == ReadLabel(r, ReadLabel(a, l).value)
    decreases |a|
  {
    if a == [] {
      assert a + r == r;
    } else {
      TagPrefix(a, r);
      var t := ReadTag(a).value;
      var b := a[t.n..];
      if t.wt != 2 {
        SkipPrefix(b, t.wt, r);
        LabelPrefix(Skip(b, t.wt).value, r, l);
      } else {
        BytesPrefix(b, r);
        var (v, rest) := BytesField(b).value;
        LabelPrefix(rest, r, if t.field == 1 then l.(Name := v) else if t.field == 2 then l.(Value := v) else l);
      }
    }
  }

  lemma SampleFieldPrefix(b: bytes, t: Tag, s: Sample, r: bytes)
    requires SampleField(b, t, s).Ok?
    ensures SampleField(b + r, t, s) == Ok((SampleField(b, t, s).value.0 + r, SampleField(b, t, s).value.1))
  {
    if t.field == 1 && t.wt == 1 {
      assert (b + r)[..8] == b[..8] && (b + r)[8..] == b[8..] + r;
    } else if t.field == 2 && t.wt == 0 {
      GetPrefix(b, MAX_LEN, r);
      var n := Uvarint(b).n;
      assert (b + r)[n..] == b[n..] + r;
    } else {
      SkipPrefix(b, t.wt, r);
    }
  }

  lemma {:induction false} SamplePrefix(a: bytes, r: bytes, s: Sample)
    requires ReadSample(a, s).Ok?
    ensures ReadSample(a + r, s) == ReadSample(r, ReadSample(a, s).value)
    decreases |a|
  {
    if a == [] {
      assert a + r == r;
    } else {
      TagPrefix(a, r);
      var t := ReadTag(a).value;
      var b := a[t.n..];
      SampleFieldPrefix(b, t, s, r);
      SamplePrefix(SampleField(b, t, s).value.0, r, SampleField(b, t, s).value.1);
    }
  }

  lemma {:induction false} SeriesPrefix(a: bytes, r: bytes, ts: TimeSeries)
    requires ReadSeries(a, ts).Ok?
    ensures ReadSeries(a + r, ts) == ReadSeries(r, ReadSeries(a, ts).value)
    decreases |a|
  {
    if a == [] {
      assert a + r == r;
    } else {
      TagPrefix(a, r);
      var t := ReadTag(a).value;
      var b := a[t.n..];
      if t.wt != 2 {
        SkipPrefix(b, t.wt, r);
        SeriesPrefix(Skip(b, t.wt).value, r, ts);
      } else {
        BytesPrefix(b, r);
        var (msg, rest) := BytesField(b).value;
        if t.field == 1 {
          SeriesPrefix(rest, r, ts.(Labels := ts.Labels + [ReadLabel(msg, Label([], [])).value]));
        } else if t.field == 2 {
          SeriesPrefix(rest, r, ts.(Samples := ts.Samples + [ReadSample(msg, Sample(0, 0)).value]));
        } else {
          SeriesPrefix(rest, r, ts);
        }
      }
    }
  }

  lemma {:induction false} RequestPrefix(a: bytes, r: bytes, out: seq<TimeSeries>)
    requires ReadRequest(a, out).err.Ok?
    ensures ReadRequest(a + r, out) == ReadRequest(r, ReadRequest(a, out).out)
    decreases |a|
  {
    if a == [] {
      assert a + r == r;
    } else {
      TagPrefix(a, r);
      var t := ReadTag(a).value;
      var b := a[t.n..];
      if t.field == 1 && t.wt == 2 {
        BytesPrefix(b, r);
        var (msg, rest) := BytesField(b).value;
        RequestPrefix(rest, r, out + [ReadSeries(msg, TimeSeries([], [])).value]);
      } else {
        SkipPrefix(b, t.wt, r);
        RequestPrefix(Skip(b, t.wt).value, r, out);
      }
    }
  }

  // --- writing ------------------------------------------------------------------------------------

  function PutBytes(field: nat, v: bytes): (r: bytes)
    ensures |r| > 0
  {
    Put(field * 8 + 2) + Put(|v|) + v
  }

  function PutLabel(l: Label): bytes {
    PutBytes(1, l.Name) + PutBytes(2, l.Value)
  }

  function PutSample(s: Sample): bytes {
    Put(1 * 8 + 1) + PutFixed(s.bits, 8) + Put(2 * 8 + 0) + Put(ToUnsigned(s.Timestamp))
  }

  function PutLabels(ls: seq<Label>): bytes {
    if ls == [] then [] else PutLabels(ls[..|ls|-1]) + PutBytes(1, PutLabel(ls[|ls|-1]))
  }

  function PutSamples(ss: seq<Sample>): bytes {
    if ss == [] then [] else PutSamples(ss[..|ss|-1]) + PutBytes(2, PutSample(ss[|ss|-1]))
  }

  function PutSeries(ts: TimeSeries): bytes {
    PutLabels(ts.Labels) + PutSamples(ts.Samples)
  }

  function PutRequest(series: seq<TimeSeries>): bytes {
    if series == [] then [] else PutRequest(series[..|series|-1]) + PutBytes(1, PutSeries(series[|series|-1]))
  }

  // --- the format, byte by byte -----------------------------------------------------------------------

  /** The last byte is the highest. */
  lemma {:induction false} FixedLast(buf: bytes, b: byte)
    ensures GetFixed(buf + [b]) == GetFixed(buf) + b * Pow256(|buf|)
  {
    if buf == [] {
      assert buf + [b] == [b] && [b][1..] == [];
    } else {
      FixedLast(buf[1..], b);
      assert (buf + [b])[1..] == buf[1..] + [b];
      assert 256 * (b * Pow256(|buf| - 1)) == b * Pow256(|buf|);
    }
  }

  /** The tags of the fields that are written, section "Message Structure" of the Protocol Buffers encoding, with the
      field numbers of prometheus.WriteRequest. */
  lemma WireFormat(l: Label, s: Sample, ts: TimeSeries)
    ensures PutLabel(l) == [0x0a] + Put(|l.Name|) + l.Name + ([0x12] + Put(|l.Value|) + l.Value)
    ensures exists u: uint64 :: (u - s.Timestamp) % TWO64 == 0 && PutSample(s) == [0x09] + PutFixed(s.bits, 8) + [0x10] + Put(u)
    ensures PutLabels([l]) == [0x0a] + Put(|PutLabel(l)|) + PutLabel(l)
    ensures PutSamples([s]) == [0x12] + Put(|PutSample(s)|) + PutSample(s)
    ensures PutRequest([ts]) == [0x0a] + Put(|PutSeries(ts)|) + PutSeries(ts)
  {
    hide PutFixed, ToUnsigned, PutLabel, PutSample, PutSeries;
    LabelFormat(l);
    SampleFormat(s);
    OneTag();
    assert [l][..0] == [] && [s][..0] == [] && [ts][..0] == [];
  }

  lemma OneTag()
    ensures Put(9) == [0x09] && Put(10) == [0x0a] && Put(16) == [0x10] && Put(18) == [0x12]
  {
  }

  lemma LabelFormat(l: Label)
    ensures PutLabel(l) == [0x0a] + Put(|l.Name|) + l.Name + ([0x12] + Put(|l.Value|) + l.Value)
  {
    hide Put;
    OneTag();
  }

  lemma SampleFormat(s: Sample)
    ensures exists u: uint64 :: (u - s.Timestamp) % TWO64 == 0 && PutSample(s) == [0x09] + PutFixed(s.bits, 8) + [0x10] + Put(u)
  {
    hide Put, PutFixed;
    OneTag();
    var u := ToUnsigned(s.Timestamp);
    assert (u - s.Timestamp) % TWO64 == 0 && PutSample(s) == [0x09] + PutFixed(s.bits, 8) + [0x10] + Put(u);
  }

  /** What each wire type stands for and how much of it is skipped; a message that is cut short is an error. */
  lemma SkipIs(v: uint64, m: bytes, rest: bytes, wt: nat)
    requires |m| < TWO64
    ensures Skip(Put(v) + rest, 0) == Ok(rest)
    ensures |m| == 8 ==> Skip(m + rest, 1) == Ok(rest)
    ensures Skip(Put(|m|) + m + rest, 2) == Ok(rest)
    ensures |m| == 4 ==> Skip(m + rest, 5) == Ok(rest)
    ensures |rest| < v ==> Skip(Put(v) + rest, 2) == Err(Truncated)
    ensures (|m| < 8 ==> Skip(m, 1) == Err(Truncated)) && (|m| < 4 ==> Skip(m, 5) == Err(Truncated))
    ensures wt !in {0, 1, 2, 5} ==> Skip(m, wt) == Err(BadWireType(wt))
  {
    hide Put, Uvarint;
    UvarintPut(v, rest);
    BytesPut(m, rest);
    assert (Put(v) + rest)[|Put(v)|..] == rest && (m + rest)[|m|..] == rest;
  }

  // --- round trips --------------------------------------------------------------------------------

  lemma TagPut(field: nat, wt: nat, rest: bytes)
    requires field * 8 + wt < TWO64 && wt < 8
    ensures ReadTag(Put(field * 8 + wt) + rest) == Ok(Tag(field, wt, |Put(field * 8 + wt)|))
    ensures (Put(field * 8 + wt) + rest)[|Put(field * 8 + wt)|..] == rest
  {
    UvarintPut(field * 8 + wt, rest);
  }

  lemma BytesPut(v: bytes, rest: bytes)
    requires |v| < TWO64
    ensures BytesField(Put(|v|) + v + rest) == Ok((v, rest))
  {
    hide Put, Uvarint, BytesField;
    UvarintPut(|v|, v + rest);
    assert Put(|v|) + v + rest == Put(|v|) + (v + rest);
    CutOut(Put(|v|), v, rest);
    FieldRead(Put(|v|) + (v + rest), |v|, |Put(|v|)|);
  }

  lemma FieldRead(buf: bytes, l: nat, n: nat)
    requires Uvarint(buf) == Got(l, n) && n + l <= |buf|
    ensures BytesField(buf) == Ok((buf[n..n+l], buf[n+l..]))
  {
    hide Uvarint;
  }

  lemma CutOut(a: bytes, v: bytes, rest: bytes)
    ensures (a + (v + rest))[|a|..|a|+|v|] == v && (a + (v + rest))[|a|+|v|..] == rest
  {
    assert (a + (v + rest))[|a|..] == v + rest;
  }

  /** A length-delimited field is read back as its tag, its content and what follows. */
  lemma PutBytesRead(field: nat, v: bytes, rest: bytes)
    requires field * 8 + 2 < TWO64 && |v| < TWO64
    ensures ReadTag(PutBytes(field, v) + rest) == Ok(Tag(field, 2, |Put(field * 8 + 2)|))
    ensures BytesField((PutBytes(field, v) + rest)[|Put(field * 8 + 2)|..]) == Ok((v, rest))
  {
    TagPut(field, 2, Put(|v|) + v + rest);
    BytesPut(v, rest);
    assert PutBytes(field, v) + rest == Put(field * 8 + 2) + (Put(|v|) + v + rest);
  }

  lemma LabelRoundTrip(l: Label)
    requires |l.Name| < TWO64 && |l.Value| < TWO64
    ensures ReadLabel(PutLabel(l), Label([], [])) == Ok(l)
  {
    PutBytesRead(1, l.Name, PutBytes(2, l.Value));
    PutBytesRead(2, l.Value, []);
    assert PutBytes(2, l.Value) + [] == PutBytes(2, l.Value);
    assert ReadLabel([], l) == Ok(l);
  }

  lemma SampleRoundTrip(s: Sample)
    ensures ReadSample(PutSample(s), Sample(0, 0)) == Ok(s)
  {
    hide Put, PutFixed, PutSample, GetFixed, ReadFixed, ReadTag, ReadSample, SampleField, ToUnsigned, ToSigned, Pow256;
    var u := ToUnsigned(s.Timestamp);
    var c := Put(16) + Put(u);
    SampleShape(s);
    TagPut(1, 1, PutFixed(s.bits, 8) + c);
    BitsRead(PutSample(s), |Put(9)|, s.bits, c, Sample(0, 0));
    TimestampRead(u, Sample(s.bits, 0));
    SignRoundTrip(s.Timestamp);
  }

  lemma SampleShape(s: Sample)
    ensures PutSample(s) == Put(9) + (PutFixed(s.bits, 8) + (Put(16) + Put(ToUnsigned(s.Timestamp))))
    ensures |Put(9)| > 0
  {
    hide PutFixed, ToUnsigned;
    var a, b, c, e := Put(9), PutFixed(s.bits, 8), Put(16), Put(ToUnsigned(s.Timestamp));
    assert a + b + c + e == a + (b + (c + e));
  }

  lemma SignRoundTrip(v: int64)
    ensures ToSigned(ToUnsigned(v)) == v
  {
  }

  /** A 64-bit value is read back from its field, and what follows it next. */
  lemma BitsRead(buf: bytes, n: nat, bits: uint64, c: bytes, s: Sample)
    requires 0 < n <= |buf| && ReadTag(buf) == Ok(Tag(1, 1, n)) && buf[n..] == PutFixed(bits, 8) + c
    ensures ReadSample(buf, s) == ReadSample(c, s.(bits := bits))
  {
    hide PutFixed, GetFixed, ReadTag, Pow256;
    var b := buf[n..];
    assert b[..8] == PutFixed(bits, 8) && b[8..] == c;
    Pow256Of8();
    FixedRoundTrip(bits, 8);
  }

  lemma TimestampRead(u: uint64, s: Sample)
    ensures ReadSample(Put(16) + Put(u), s) == Ok(s.(Timestamp := ToSigned(u)))
  {
    TagPut(2, 0, Put(u));
    UvarintPut(u, []);
    assert Put(u) + [] == Put(u) && Put(u)[|Put(u)|..] == [];
    assert ReadSample([], s.(Timestamp := ToSigned(u))) == Ok(s.(Timestamp := ToSigned(u)));
  }

  /** Reading a label field after what a reads to. */
  lemma OneLabel(a: bytes, v: bytes, l: Label, ts0: TimeSeries, ts: TimeSeries)
    requires ReadSeries(a, ts0) == Ok(ts) && |v| < TWO64 && ReadLabel(v, Label([], [])) == Ok(l)
    ensures ReadSeries(a + PutBytes(1, v), ts0) == Ok(ts.(Labels := ts.Labels + [l]))
  {
    SeriesPrefix(a, PutBytes(1, v), ts0);
    PutBytesRead(1, v, []);
    assert PutBytes(1, v) + [] == PutBytes(1, v);
    assert ReadSeries([], ts.(Labels := ts.Labels + [l])) == Ok(ts.(Labels := ts.Labels + [l]));
  }

  lemma OneSample(a: bytes, v: bytes, s: Sample, ts0: TimeSeries, ts: TimeSeries)
    requires ReadSeries(a, ts0) == Ok(ts) && |v| < TWO64 && ReadSample(v, Sample(0, 0)) == Ok(s)
    ensures ReadSeries(a + PutBytes(2, v), ts0) == Ok(ts.(Samples := ts.Samples + [s]))
  {
    SeriesPrefix(a, PutBytes(2, v), ts0);
    PutBytesRead(2, v, []);
    assert PutBytes(2, v) + [] == PutBytes(2, v);
    assert ReadSeries([], ts.(Samples := ts.Samples + [s])) == Ok(ts.(Samples := ts.Samples + [s]));
  }

  lemma OneSeries(a: bytes, v: bytes, ts: TimeSeries, out: seq<TimeSeries>)
    requires ReadRequest(a, []) == Walk(out, Ok(())) && |v| < TWO64 && ReadSeries(v, TimeSeries([], [])) == Ok(ts)
    ensures ReadRequest(a + PutBytes(1, v), []) == Walk(out + [ts], Ok(()))
  {
    RequestPrefix(a, PutBytes(1, v), []);
    PutBytesRead(1, v, []);
    assert PutBytes(1, v) + [] == PutBytes(1, v);
    assert ReadRequest([], out + [ts]) == Walk(out + [ts], Ok(()));
  }

  lemma EmptyReads(ts: TimeSeries, out: seq<TimeSeries>)
    ensures ReadSeries([], ts) == Ok(ts) && ReadRequest([], out) == Walk(out, Ok(()))
  {
  }

  lemma Sizes(field: nat, v: bytes, l: Label)
    ensures |PutBytes(field, v)| >= |v|
    ensures |PutLabel(l)| >= |l.Name| + |l.Value|
  {
  }

  lemma {:induction false} LabelsRoundTrip(ls: seq<Label>)
    requires |PutLabels(ls)| < TWO64
    ensures ReadSeries(PutLabels(ls), TimeSeries([], [])) == Ok(TimeSeries(ls, []))
  {
    hide ReadSeries, ReadLabel, Put, PutBytes, PutLabel;
    EmptyReads(TimeSeries([], []), []);
    if ls != [] {
      var init, l := ls[..|ls|-1], ls[|ls|-1];
      Sizes(1, PutLabel(l), l);
      LabelsRoundTrip(init);
      LabelRoundTrip(l);
      OneLabel(PutLabels(init), PutLabel(l), l, TimeSeries([], []), TimeSeries(init, []));
      assert init + [l] == ls;
    }
  }

  lemma {:induction false} SamplesRoundTrip(ls: seq<Label>, ss: seq<Sample>)
    requires |PutSamples(ss)| < TWO64
    ensures ReadSeries(PutSamples(ss), TimeSeries(ls, [])) == Ok(TimeSeries(ls, ss))
  {
    hide ReadSeries, ReadSample, Put, PutBytes, PutSample;
    EmptyReads(TimeSeries(ls, []), []);
    if ss != [] {
      var init, s := ss[..|ss|-1], ss[|ss|-1];
      Sizes(2, PutSample(s), Label([], []));
      SamplesRoundTrip(ls, init);
      SampleRoundTrip(s);
      OneSample(PutSamples(init), PutSample(s), s, TimeSeries(ls, []), TimeSeries(ls, init));
      assert init + [s] == ss;
    }
  }

  lemma SeriesRoundTrip(ts: TimeSeries)
    requires |PutSeries(ts)| < TWO64
    ensures ReadSeries(PutSeries(ts), TimeSeries([], [])) == Ok(ts)
  {
    hide ReadSeries, PutLabels, PutSamples;
    LabelsRoundTrip(ts.Labels);
    SeriesPrefix(PutLabels(ts.Labels), PutSamples(ts.Samples), TimeSeries([], []));
    SamplesRoundTrip(ts.Labels, ts.Samples);
  }

  /** Decoding what Encode builds yields the same series: labels, 64-bit values, signed times. */
  lemma {:induction false} RequestRoundTrip(series: seq<TimeSeries>)
    requires |PutRequest(series)| < TWO64
    ensures ReadRequest(PutRequest(series), []) == Walk(series, Ok(()))
  {
    hide ReadRequest, ReadSeries, Put, PutBytes, PutSeries;
    EmptyReads(TimeSeries([], []), []);
    if series != [] {
      var init, ts := series[..|series|-1], series[|series|-1];
      Sizes(1, PutSeries(ts), Label([], []));
      RequestRoundTrip(init);
      SeriesRoundTrip(ts);
      OneSeries(PutRequest(init), PutSeries(ts), ts, init);
      assert init + [ts] == series;
    }
  }

  // --- what was read is small enough to be written again ---------------------------------------

  lemma PutBytesSize(field: nat, v: bytes)
    requires 1 <= field <= 2 && |v| < TWO64
    ensures |PutBytes(field, v)| <= 11 + |v|
  {
    UvarintPut(|v|, []);
    assert |Put(field * 8 + 2)| == 1;
  }

  lemma PutLabelSize(l: Label, n: nat)
    requires |l.Name| <= n && |l.Value| <= n && n < TWO64
    ensures |PutLabel(l)| <= 22 + 2 * n
  {
    PutBytesSize(1, l.Name);
    PutBytesSize(2, l.Value);
  }

  lemma PutSampleSize(s: Sample)
    ensures |PutSample(s)| <= 20
  {
    UvarintPut(ToUnsigned(s.Timestamp), []);
    assert |Put(9)| == 1 && |Put(16)| == 1;
  }

  lemma {:induction false} LabelSize(buf: bytes, l: Label, n: nat)
    requires ReadLabel(buf, l).Ok? && |buf| <= n && |l.Name| <= n && |l.Value| <= n
    ensures var r := ReadLabel(buf, l).value; |r.Name| <= n && |r.Value| <= n
    decreases |buf|
  {
    hide Uvarint;
    if buf != [] {
      var t := ReadTag(buf).value;
      var b := buf[t.n..];
      if t.wt != 2 {
        LabelSize(Skip(b, t.wt).value, l, n);
      } else {
        var (v, rest) := BytesField(b).value;
        LabelSize(rest, if t.field == 1 then l.(Name := v) else if t.field == 2 then l.(Value := v) else l, n);
      }
    }
  }

  lemma PutSeriesMore(ts: TimeSeries, l: Label, s: Sample)
    ensures |PutSeries(ts.(Labels := ts.Labels + [l]))| == |PutSeries(ts)| + |PutBytes(1, PutLabel(l))|
    ensures |PutSeries(ts.(Samples := ts.Samples + [s]))| == |PutSeries(ts)| + |PutBytes(2, PutSample(s))|
  {
    hide PutBytes, PutLabel, PutSample;
    assert (ts.Labels + [l])[..|ts.Labels|] == ts.Labels;
    assert (ts.Samples + [s])[..|ts.Samples|] == ts.Samples;
  }

  /** Written again, a series takes at most 17 bytes for each byte it was read from. */
  lemma {:induction false} SeriesSize(buf: bytes, ts: TimeSeries)
    requires ReadSeries(buf, ts).Ok? && |buf| < 0x1_0000_0000
    ensures |PutSeries(ReadSeries(buf, ts).value)| <= |PutSeries(ts)| + 17 * |buf|
    decreases |buf|
  {
    hide Uvarint, PutSeries, ReadLabel, ReadSample, PutBytes, PutLabel, PutSample;
    if buf != [] {
      var t := ReadTag(buf).value;
      var b := buf[t.n..];
      if t.wt != 2 {
        SeriesSize(Skip(b, t.wt).value, ts);
      } else {
        var (msg, rest) := BytesField(b).value;
        if t.field == 1 {
          var l := ReadLabel(msg, Label([], [])).value;
          LabelSize(msg, Label([], []), |msg|);
          PutLabelSize(l, |msg|);
          PutBytesSize(1, PutLabel(l));
          PutSeriesMore(ts, l, Sample(0, 0));
          SeriesSize(rest, ts.(Labels := ts.Labels + [l]));
        } else if t.field == 2 {
          var s := ReadSample(msg, Sample(0, 0)).value;
          PutSampleSize(s);
          PutBytesSize(2, PutSample(s));
          PutSeriesMore(ts, Label([], []), s);
          SeriesSize(rest, ts.(Samples := ts.Samples + [s]));
        } else {
          SeriesSize(rest, ts);
        }
      }
    }
  }

  lemma {:induction false} RequestSize(buf: bytes, out: seq<TimeSeries>)
    requires ReadRequest(buf, out).err.Ok? && |buf| < 0x1_0000_0000
    ensures |PutRequest(ReadRequest(buf, out).out)| <= |PutRequest(out)| + 17 * |buf|
    decreases |buf|
  {
    hide Uvarint, PutSeries, ReadSeries, PutBytes;
    if buf != [] {
      var t := ReadTag(buf).value;
      var b := buf[t.n..];
      if t.field == 1 && t.wt == 2 {
        var (msg, rest) := BytesField(b).value;
        var ts := ReadSeries(msg, TimeSeries([], [])).value;
        SeriesSize(msg, TimeSeries([], []));
        EmptySeriesSize();
        PutBytesSize(1, PutSeries(ts));
        assert (out + [ts])[..|out|] == out;
        RequestSize(rest, out + [ts]);
      } else {
        RequestSize(Skip(b, t.wt).value, out);
      }
    }
  }

  lemma EmptySeriesSize()
    ensures PutSeries(TimeSeries([], [])) == []
  {
  }

  /** Whatever decodes, from a request within the 256 MiB that are accepted, survives being encoded
      and decoded again. */
  lemma ReencodeRoundTrip(buf: bytes)
    requires |buf| <= 0x1000_0000 && ReadRequest(buf, []).err.Ok?
    ensures ReadRequest(PutRequest(ReadRequest(buf, []).out), []) == ReadRequest(buf, [])
  {
    hide ReadRequest, PutRequest;
    RequestSize(buf, []);
    EmptyRequestSize();
    var w := ReadRequest(buf, []);
    RequestRoundTrip(w.out);
    assert w.err.value == ();
  }

  lemma EmptyRequestSize()
    ensures PutRequest([]) == []
  {
  }

  // --- unknown fields -----------------------------------------------------------------------------

  /** The field numbers and wire types that each message knows. */
  const REQUEST_FIELDS: set<(nat, nat)> := {(1, 2)}
  const SERIES_FIELDS: set<(nat, nat)> := {(1, 2), (2, 2)}
  const LABEL_FIELDS: set<(nat, nat)> := {(1, 2), (2, 2)}
  const SAMPLE_FIELDS: set<(nat, nat)> := {(1, 1), (2, 0)}

  /** One complete field that a message does not know: another number, or another wire type. */
  ghost predicate ForeignField(f: bytes, known: set<(nat, nat)>) {
    && ReadTag(f).Ok?
    && var t := ReadTag(f).value; (t.field, t.wt) !in known && Skip(f[t.n..], t.wt) == Ok([])
  }

  lemma ForeignParts(f: bytes, known: set<(nat, nat)>, r: bytes)
    requires ForeignField(f, known)
    ensures f != [] && ReadTag(f + r) == ReadTag(f)
    ensures var t := ReadTag(f).value;
      && Skip((f + r)[t.n..], t.wt) == Ok(r)
      && (t.wt == 2 ==> BytesField((f + r)[t.n..]).Ok? && BytesField((f + r)[t.n..]).value.1 == r)
  {
    hide Uvarint;
    var t := ReadTag(f).value;
    TagPrefix(f, r);
    SkipPrefix(f[t.n..], t.wt, r);
    assert [] + r == r;
  }

  lemma ForeignInRequest(a: bytes, f: bytes, r: bytes, out: seq<TimeSeries>)
    requires ForeignField(f, REQUEST_FIELDS) && ReadRequest(a, out).err.Ok?
    ensures ReadRequest(a + f + r, out) == ReadRequest(a + r, out)
  {
    hide Uvarint, Skip, ReadTag, BytesField, ForeignField;
    ForeignParts(f, REQUEST_FIELDS, r);
    ForeignKnown(f, REQUEST_FIELDS);
    RequestPrefix(a, f + r, out);
    RequestPrefix(a, r, out);
    assert a + f + r == a + (f + r);
  }

  lemma ForeignKnown(f: bytes, known: set<(nat, nat)>)
    requires ForeignField(f, known)
    ensures ReadTag(f).Ok? && (ReadTag(f).value.field, ReadTag(f).value.wt) !in known
  {
  }

  lemma ForeignInSeries(a: bytes, f: bytes, r: bytes, ts: TimeSeries)
    requires ForeignField(f, SERIES_FIELDS) && ReadSeries(a, ts).Ok?
    ensures ReadSeries(a + f + r, ts) == ReadSeries(a + r, ts)
  {
    hide Uvarint, Skip, ReadTag, BytesField, ForeignField;
    ForeignParts(f, SERIES_FIELDS, r);
    ForeignKnown(f, SERIES_FIELDS);
    SeriesPrefix(a, f + r, ts);
    SeriesPrefix(a, r, ts);
    assert a + f + r == a + (f + r);
  }

  lemma ForeignInLabel(a: bytes, f: bytes, r: bytes, l: Label)
    requires ForeignField(f, LABEL_FIELDS) && ReadLabel(a, l).Ok?
    ensures ReadLabel(a + f + r, l) == ReadLabel(a + r, l)
  {
    hide Uvarint, Skip, ReadTag, BytesField, ForeignField;
    ForeignParts(f, LABEL_FIELDS, r);
    ForeignKnown(f, LABEL_FIELDS);
    LabelPrefix(a, f + r, l);
    LabelPrefix(a, r, l);
    assert a + f + r == a + (f + r);
  }

  lemma ForeignInSample(a: bytes, f: bytes, r: bytes, s: Sample)
    requires ForeignField(f, SAMPLE_FIELDS) && ReadSample(a, s).Ok?
    ensures ReadSample(a + f + r, s) == ReadSample(a + r, s)
  {
    hide Uvarint, Skip, ReadTag, BytesField, ForeignField;
    ForeignParts(f, SAMPLE_FIELDS, r);
    ForeignKnown(f, SAMPLE_FIELDS);
    SamplePrefix(a, f + r, s);
    SamplePrefix(a, r, s);
    assert a + f + r == a + (f + r);
  }

  /** Exemplars, histograms, metadata or any later extension between two fields of a message change nothing
      about what any of the readers reads. */
  lemma ForeignFieldIgnored(a: bytes, f: bytes, r: bytes)
    ensures forall out {:trigger ReadRequest(a, out)} :: ForeignField(f, REQUEST_FIELDS) && ReadRequest(a, out).err.Ok? ==>
      ReadRequest(a + f + r, out) == ReadRequest(a + r, out)
    ensures forall ts {:trigger ReadSeries(a, ts)} :: ForeignField(f, SERIES_FIELDS) && ReadSeries(a, ts).Ok? ==>
      ReadSeries(a + f + r, ts) == ReadSeries(a + r, ts)
    ensures forall l {:trigger ReadLabel(a, l)} :: ForeignField(f, LABEL_FIELDS) && ReadLabel(a, l).Ok? ==>
      ReadLabel(a + f + r, l) == ReadLabel(a + r, l)
    ensures forall s {:trigger ReadSample(a, s)} :: ForeignField(f, SAMPLE_FIELDS) && ReadSample(a, s).Ok? ==>
      ReadSample(a + f + r, s) == ReadSample(a + r, s)
  {
    hide *;
    forall out | ForeignField(f, REQUEST_FIELDS) && ReadRequest(a, out).err.Ok? {
      ForeignInRequest(a, f, r, out);
    }
    forall ts | ForeignField(f, SERIES_FIELDS) && ReadSeries(a, ts).Ok? {
      ForeignInSeries(a, f, r, ts);
    }
    forall l | ForeignField(f, LABEL_FIELDS) && ReadLabel(a, l).Ok? {
      ForeignInLabel(a, f, r, l);
    }
    forall s | ForeignField(f, SAMPLE_FIELDS) && ReadSample(a, s).Ok? {
      ForeignInSample(a, f, r, s);
    }
  }

  // --- the loops ----------------------------------------------------------------------------------

  method Tagged(buf: bytes) returns (field: nat, wt: nat, n: int)
    ensures if n <= 0 then ReadTag(buf) == Err(Truncated) else ReadTag(buf) == Ok(Tag(field, wt, n))
  {
    var v;
    v, n := ReadUvarint(buf);
    field, wt := v / 8, v % 8;
  }

  method DecodeLabel(msg: bytes) returns (r: Result<Label>)
    ensures r == ReadLabel(msg, Label([], []))
  {
    var buf, l := msg, Label([], []);
    while |buf| > 0
      invariant ReadLabel(msg, Label([], [])) == ReadLabel(buf, l)
      decreases |buf|
    {
      var field, wt, n := Tagged(buf);
      if n <= 0 {
        return Err(Truncated);
      }
      buf := buf[n..];
      if wt != 2 {
        match Skip(buf, wt) {
          case Err(e) => return Err(e);
          case Ok(rest) => buf := rest;
        }
      } else {
        match BytesField(buf) {
          case Err(e) => return Err(e);
          case Ok((v, rest)) =>
            buf := rest;
            if field == 1 {
              l := l.(Name := v);
            } else if field == 2 {
              l := l.(Value := v);
            }
        }
      }
    }
    r := Ok(l);
  }

  method DecodeSample(msg: bytes) returns (r: Result<Sample>)
    ensures r == ReadSample(msg, Sample(0, 0))
  {
    var buf, s := msg, Sample(0, 0);
    while |buf| > 0
      invariant ReadSample(msg, Sample(0, 0)) == ReadSample(buf, s)
      decreases |buf|
    {
      var field, wt, n := Tagged(buf);
      if n <= 0 {
        return Err(Truncated);
      }
      buf := buf[n..];
      if field == 1 && wt == 1 {
        if |buf| < 8 {
          return Err(Truncated);
        }
        s := s.(bits := ReadFixed(buf));
        buf := buf[8..];
      } else if field == 2 && wt == 0 {
        var v, k := ReadUvarint(buf);
        if k <= 0 {
          return Err(Truncated);
        }
        s := s.(Timestamp := ToSigned(v));
        buf := buf[k..];
      } else {
        match Skip(buf, wt) {
          case Err(e) => return Err(e);
          case Ok(rest) => buf := rest;
        }
      }
    }
    r := Ok(s);
  }

  method DecodeSeries(msg: bytes) returns (r: Result<TimeSeries>)
    ensures r == ReadSeries(msg, TimeSeries([], []))
  {
    var buf, ts := msg, TimeSeries([], []);
    while |buf| > 0
      invariant ReadSeries(msg, TimeSeries([], [])) == ReadSeries(buf, ts)
      decreases |buf|
    {
      var field, wt, n := Tagged(buf);
      if n <= 0 {
        return Err(Truncated);
      }
      buf := buf[n..];
      if wt != 2 {
        match Skip(buf, wt) {
          case Err(e) => return Err(e);
          case Ok(rest) => buf := rest;
        }
      } else {
        match BytesField(buf) {
          case Err(e) => return Err(e);
          case Ok((v, rest)) =>
            buf := rest;
            if field == 1 {
              var l := DecodeLabel(v);
              if l.Err? {
                return Err(l.error);
              }
              ts := ts.(Labels := ts.Labels + [l.value]);
            } else if field == 2 {
              var s := DecodeSample(v);
              if s.Err? {
                return Err(s.error);
              }
              ts := ts.(Samples := ts.Samples + [s.value]);
            }
        }
      }
    }
    r := Ok(ts);
  }

  /** Delivers the series one by one; on an error, those before it have been delivered. */
  method Decode(req: bytes) returns (out: seq<TimeSeries>, err: Result<()>)
    ensures Walk(out, err) == ReadRequest(req, [])
  {
    var buf := req;
    out, err := [], Ok(());
    while |buf| > 0
      invariant err == Ok(()) && ReadRequest(req, []) == ReadRequest(buf, out)
      decreases |buf|
    {
      var field, wt, n := Tagged(buf);
      if n <= 0 {
        return out, Err(Truncated);
      }
      buf := buf[n..];
      if field == 1 && wt == 2 {
        match BytesField(buf) {
          case Err(e) => return out, Err(e);
          case Ok((msg, rest)) =>
            buf := rest;
            var ts := DecodeSeries(msg);
            if ts.Err? {
              return out, Err(ts.error);
            }
            out := out + [ts.value];
        }
      } else {
        match Skip(buf, wt) {
          case Err(e) => return out, Err(e);
          case Ok(rest) => buf := rest;
        }
      }
    }
  }

  method AppendBytes(dst: bytes, field: nat, v: bytes) returns (r: bytes)
    requires field * 8 + 2 < TWO64 && |v| < TWO64
    ensures r == dst + PutBytes(field, v)
  {
    r := AppendUvarint(dst, field * 8 + 2);
    r := AppendUvarint(r, |v|);
    r := r + v;
  }

  /** The raw request, before compression. */
  method Encode(series: seq<TimeSeries>) returns (buf: bytes)
    requires |PutRequest(series)| < TWO64
    ensures buf == PutRequest(series)
  {
    buf := [];
    for i := 0 to |series|
      invariant buf == PutRequest(series[..i])
    {
      PutRequestPrefix(series, i + 1);
      assert series[..i+1][..i] == series[..i];
      var tmp := EncodeSeries(series[i]);
      buf := AppendBytes(buf, 1, tmp);
    }
    assert series[..|series|] == series;
  }

  lemma {:induction false} PutRequestPrefix(series: seq<TimeSeries>, n: nat)
    requires n <= |series|
    ensures |PutRequest(series[..n])| <= |PutRequest(series)|
    decreases |series|
  {
    if n < |series| {
      var init := series[..|series|-1];
      PutRequestPrefix(init, n);
      assert init[..n] == series[..n];
    } else {
      assert series[..n] == series;
    }
  }

  method EncodeLabel(l: Label) returns (lb: bytes)
    requires |PutLabel(l)| < TWO64
    ensures lb == PutLabel(l)
  {
    lb := AppendBytes([], 1, l.Name);
    lb := AppendBytes(lb, 2, l.Value);
  }

  method EncodeSample(smp: Sample) returns (sb: bytes)
    ensures sb == PutSample(smp)
  {
    sb := AppendUvarint([], 1 * 8 + 1);
    sb := sb + PutFixed(smp.bits, 8);
    sb := AppendUvarint(sb, 2 * 8 + 0);
    sb := AppendUvarint(sb, ToUnsigned(smp.Timestamp));
  }

  method EncodeSeries(s: TimeSeries) returns (tmp: bytes)
    requires |PutSeries(s)| < TWO64
    ensures tmp == PutSeries(s)
  {
    hide Put, PutBytes, PutLabel, PutSample, PutLabels, PutSamples;
    NothingPut();
    tmp := [];
    for i := 0 to |s.Labels|
      invariant tmp == PutLabels(s.Labels[..i])
    {
      PutLabelsPrefix(s.Labels, i + 1);
      OnePut(s, i, 0);
      Sizes(1, PutLabel(s.Labels[i]), s.Labels[i]);
      var lb := EncodeLabel(s.Labels[i]);
      tmp := AppendBytes(tmp, 1, lb);
    }
    assert s.Labels[..|s.Labels|] == s.Labels;
    for i := 0 to |s.Samples|
      invariant tmp == PutLabels(s.Labels) + PutSamples(s.Samples[..i])
    {
      OnePut(s, 0, i);
      var sb := EncodeSample(s.Samples[i]);
      PutSampleSize(s.Samples[i]);
      tmp := AppendBytes(tmp, 2, sb);
    }
    assert s.Samples[..|s.Samples|] == s.Samples;
  }

  lemma NothingPut()
    ensures PutLabels([]) == [] && PutSamples([]) == []
  {
  }

  lemma OnePut(s: TimeSeries, i: nat, j: nat)
    ensures i < |s.Labels| ==> PutLabels(s.Labels[..i+1]) == PutLabels(s.Labels[..i]) + PutBytes(1, PutLabel(s.Labels[i]))
    ensures j < |s.Samples| ==> PutSamples(s.Samples[..j+1]) == PutSamples(s.Samples[..j]) + PutBytes(2, PutSample(s.Samples[j]))
  {
    assert i < |s.Labels| ==> s.Labels[..i+1][..i] == s.Labels[..i];
    assert j < |s.Samples| ==> s.Samples[..j+1][..j] == s.Samples[..j];
  }

  lemma {:induction false} PutLabelsPrefix(ls: seq<Label>, n: nat)
    requires n <= |ls|
    ensures |PutLabels(ls[..n])| <= |PutLabels(ls)|
    decreases |ls|
  {
    if n < |ls| {
      var init := ls[..|ls|-1];
      PutLabelsPrefix(init, n);
      assert init[..n] == ls[..n];
    } else {
      assert ls[..n] == ls;
    }
  }
}
