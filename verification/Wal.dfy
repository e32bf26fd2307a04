/** The write-ahead log: framing of records, and the replay that reads a log back after a crash. */
module Wal {
  import opened Keys
  import opened Coding
  import Crc32

  const KIND_VALUE: byte := 0
  const KIND_TOMBSTONE: byte := 1
  const HEADER_SIZE: nat := 8

  datatype Record = Record(kind: byte, key: Bytes, value: Bytes)

  // ---- Framing -----------------------------------------------------------------------------------

  function Payload(r: Record): (p: Bytes)
    ensures |p| == 9 + |r.key| + |r.value|
  {
    [r.kind] + PutFixed32(|r.key|) + r.key + PutFixed32(|r.value|) + r.value
  }

  function Frame(r: Record): (f: Bytes)
    ensures |f| == HEADER_SIZE + |Payload(r)|
  {
    PutFixed32(Crc32.Checksum(Payload(r))) + PutFixed32(|Payload(r)|) + Payload(r)
  }

  /** The payload length survives its cast to uint32_t. */
  predicate Fits(r: Record) {
    9 + |r.key| + |r.value| < TWO_32
  }

  predicate AllFit(rs: seq<Record>) {
    forall i :: 0 <= i < |rs| ==> Fits(rs[i])
  }

  function Frames(rs: seq<Record>): Bytes {
    if rs == [] then [] else Frame(rs[0]) + Frames(rs[1..])
  }

  class WalWriter {
    var file: Bytes

    constructor (contents: Bytes)
      ensures file == contents
    {
      file := contents;
    }

    method AddRecord(kind: byte, key: Bytes, value: Bytes)
      modifies this
      ensures file == old(file) + Frame(Record(kind, key, value))
    {
      var payload: Bytes := [kind];
      payload := payload + PutFixed32(|key|);
      payload := payload + key;
      payload := payload + PutFixed32(|value|);
      payload := payload + value;

      var crc := Crc32.Compute(payload);
      var frame := PutFixed32(crc);
      frame := frame + PutFixed32(|payload|);
      frame := frame + payload;
      file := file + frame;
    }
  }

  // ---- Replay ------------------------------------------------------------------------------------

  /** What the replay loop finds at its position: a record and the bytes it takes, or a reason to stop. */
  datatype Step = Stop | Read(record: Record, size: nat)

  function ParsePayload(p: Bytes): (s: Step)
    ensures s.Read? ==> s.size == HEADER_SIZE + |p|
  {
    if |p| < 5 then
      Stop
    else
      var klen := DecodeFixed32(p[1..]);
      if 5 + klen + 4 > |p| then
        Stop
      else
        var vlen := DecodeFixed32(p[5 + klen..]);
        if 9 + klen + vlen != |p| then
          Stop
        else
          Read(Record(p[0], p[5..5 + klen], p[9 + klen..]), HEADER_SIZE + |p|)
  }

  function ReadOne(s: Bytes): (step: Step)
    ensures step.Read? ==> HEADER_SIZE <= step.size <= |s|
  {
    if |s| < HEADER_SIZE then
      Stop
    else
      var crc := DecodeFixed32(s);
      var len := DecodeFixed32(s[4..]);
      if HEADER_SIZE + len > |s| then
        Stop
      else
        var payload := s[HEADER_SIZE..HEADER_SIZE + len];
        if Crc32.Checksum(payload) != crc then Stop else ParsePayload(payload)
  }

  /** The records a log replays to. */
  function Replay(s: Bytes): seq<Record>
    decreases |s|
  {
    match ReadOne(s)
    case Stop => []
    case Read(r, n) => [r] + Replay(s[n..])
  }

  /** How many bytes of a log the replay gets through before it stops. */
  function Consumed(s: Bytes): (n: nat)
    ensures n <= |s|
    decreases |s|
  {
    match ReadOne(s)
    case Stop => 0
    case Read(_, n) => n + Consumed(s[n..])
  }

  method WalReplay(buf: Bytes) returns (records: seq<Record>, count: nat)
    ensures records == Replay(buf)
    ensures count == |records|
  {
    hide Crc32.Checksum, PutFixed32, DecodeFixed32, Replay;
    records, count := [], 0;
    var pos := 0;
    assert buf[pos..] == buf;
    while pos + HEADER_SIZE <= |buf|
      invariant 0 <= pos <= |buf|
      invariant records + Replay(buf[pos..]) == Replay(buf)
      invariant count == |records|
      decreases |buf| - pos
    {
      ReplayStops(buf[pos..]);
      var s := buf[pos..];
      var crc := DecodeFixed32(s);
      var len := DecodeFixed32(s[4..]);
      if pos + HEADER_SIZE + len > |buf| {
        return;  // torn tail record
      }
      var payload := s[HEADER_SIZE..HEADER_SIZE + len];
      var actual := Crc32.Compute(payload);
      if actual != crc {
        return;  // corrupt tail record
      }
      if len < 5 {
        return;
      }
      var q := 1;
      var klen := DecodeFixed32(payload[q..]);
      q := q + 4;
      if q + klen + 4 > len {
        return;
      }
      var key := payload[q..q + klen];
      q := q + klen;
      var vlen := DecodeFixed32(payload[q..]);
      q := q + 4;
      if q + vlen != len {
        return;
      }
      var value := payload[q..q + vlen];

      assert ReadOne(s) == Read(Record(payload[0], key, value), HEADER_SIZE + len);
      ReplayStep(buf, pos);
      records := records + [Record(payload[0], key, value)];
      count := count + 1;
      pos := pos + HEADER_SIZE + len;
    }
    ReplayStops(buf[pos..]);
  }

  lemma ReplayStops(s: Bytes)
    ensures ReadOne(s).Stop? ==> Replay(s) == []
  {
    hide ReadOne;
  }

  lemma ReplayStep(buf: Bytes, pos: nat)
    requires pos <= |buf| && ReadOne(buf[pos..]).Read?
    ensures var step := ReadOne(buf[pos..]);
      Replay(buf[pos..]) == [step.record] + Replay(buf[pos + step.size..])
  {
    hide ReadOne;
    var n := ReadOne(buf[pos..]).size;
    assert buf[pos..][n..] == buf[pos + n..];
  }

  // ---- A frame reads back, and only a frame does -------------------------------------------------

  lemma PayloadParses(r: Record)
    requires Fits(r)
    ensures ParsePayload(Payload(r)) == Read(r, |Frame(r)|)
  {
    hide Crc32.Checksum, PutFixed32, DecodeFixed32;
    var p := Payload(r);
    var rest := r.key + PutFixed32(|r.value|) + r.value;
    assert p[1..] == PutFixed32(|r.key|) + rest;
    Fixed32RoundTrip(|r.key|, rest);
    assert p[5..5 + |r.key|] == r.key;
    assert p[5 + |r.key|..] == PutFixed32(|r.value|) + r.value;
    Fixed32RoundTrip(|r.value|, r.value);
    assert p[9 + |r.key|..] == r.value;
  }

  lemma FrameReads(r: Record, g: Bytes)
    requires Fits(r)
    ensures ReadOne(Frame(r) + g) == Read(r, |Frame(r)|)
  {
    hide Crc32.Checksum, PutFixed32, DecodeFixed32;
    var p := Payload(r);
    var s := Frame(r) + g;
    var crc := Crc32.Checksum(p);
    assert s == PutFixed32(crc) + (PutFixed32(|p|) + p + g);
    Fixed32RoundTrip(crc, PutFixed32(|p|) + p + g);
    assert s[4..] == PutFixed32(|p|) + (p + g);
    Fixed32RoundTrip(|p|, p + g);
    assert s[HEADER_SIZE..HEADER_SIZE + |p|] == p;
    PayloadParses(r);
  }

  lemma ParsedPayload(p: Bytes)
    requires ParsePayload(p).Read?
    ensures Payload(ParsePayload(p).record) == p
  {
    hide Crc32.Checksum, PutFixed32, DecodeFixed32;
    var r := ParsePayload(p).record;
    Fixed32Inverse(p[1..]);
    Fixed32Inverse(p[5 + |r.key|..]);
    assert p == [p[0]] + p[1..][..4] + r.key + p[5 + |r.key|..][..4] + r.value;
  }

  /** Whatever the replay reads is byte for byte the frame of the record it reports. */
  lemma ReadIsFrame(s: Bytes)
    requires ReadOne(s).Read?
    ensures var r := ReadOne(s).record;
      Fits(r) && ReadOne(s).size == |Frame(r)| && s[..|Frame(r)|] == Frame(r)
  {
    hide Crc32.Checksum, PutFixed32, DecodeFixed32;
    var len := DecodeFixed32(s[4..]);
    var payload := s[HEADER_SIZE..HEADER_SIZE + len];
    ParsedPayload(payload);
    Fixed32Inverse(s);
    Fixed32Inverse(s[4..]);
    assert s[..HEADER_SIZE + len] == s[..4] + s[4..][..4] + payload;
  }

  /** A record comes back from its own frame exactly when its payload length fits the header field. */
  lemma FrameReadsIffFits(r: Record, g: Bytes)
    ensures (ReadOne(Frame(r) + g).Read? && ReadOne(Frame(r) + g).record == r) <==> Fits(r)
  {
    if Fits(r) {
      FrameReads(r, g);
    } else if ReadOne(Frame(r) + g).Read? {
      ReadIsFrame(Frame(r) + g);
    }
  }

  /** Replaying whole frames followed by any bytes: the records, then whatever the rest replays to. */
  lemma {:induction false} ReplayCompose(rs: seq<Record>, g: Bytes)
    requires AllFit(rs)
    ensures Replay(Frames(rs) + g) == rs + Replay(g)
    ensures Consumed(Frames(rs) + g) == |Frames(rs)| + Consumed(g)
  {
    hide ReadOne, Frame, Replay, Consumed;
    if rs == [] {
      assert Frames(rs) + g == g;
    } else {
      assert Frames(rs) + g == Frame(rs[0]) + (Frames(rs[1..]) + g);
      ReplayFirst(rs[0], Frames(rs[1..]) + g);
      ReplayCompose(rs[1..], g);
    }
  }

  /** Every log is the frames of what it replays to, followed by a tail where the replay stops. */
  lemma {:induction false} ReplaySplits(s: Bytes)
    ensures AllFit(Replay(s))
    ensures s[..Consumed(s)] == Frames(Replay(s))
    ensures ReadOne(s[Consumed(s)..]).Stop?
    decreases |s|
  {
    hide ReadOne, Frame;
    if ReadOne(s).Stop? {
      assert s[Consumed(s)..] == s;
    } else {
      var r, n := ReadOne(s).record, ReadOne(s).size;
      ReadIsFrame(s);
      ReplaySplits(s[n..]);
      SplitStep(s, n, Consumed(s[n..]));
      FramesStep(r, Replay(s[n..]));
    }
  }

  lemma SplitStep(s: Bytes, n: nat, m: nat)
    requires n + m <= |s|
    ensures s[..n + m] == s[..n] + s[n..][..m]
    ensures s[n..][m..] == s[n + m..]
  {
  }

  lemma FramesStep(r: Record, rs: seq<Record>)
    ensures Frames([r] + rs) == Frame(r) + Frames(rs)
    ensures Fits(r) && AllFit(rs) ==> AllFit([r] + rs)
  {
    hide Frame;
    assert ([r] + rs)[1..] == rs;
  }

  // ---- Prefixes: what a crash in the middle of an append leaves ----------------------------------

  /** A frame cut short is not read at all. */
  lemma TornFrame(r: Record, n: nat)
    requires Fits(r) && n < |Frame(r)|
    ensures ReadOne(Frame(r)[..n]).Stop?
    ensures Replay(Frame(r)[..n]) == []
  {
    hide Crc32.Checksum, PutFixed32, DecodeFixed32;
    var p := Payload(r);
    var s := Frame(r)[..n];
    if n >= HEADER_SIZE {
      assert s[4..] == PutFixed32(|p|) + p[..n - HEADER_SIZE];
      Fixed32RoundTrip(|p|, p[..n - HEADER_SIZE]);
    }
  }

  /** How many of the frames of rs lie wholly in the first n bytes. */
  function WholeFrames(rs: seq<Record>, n: nat): (k: nat)
    ensures k <= |rs|
  {
    if rs == [] || n < |Frame(rs[0])| then 0 else 1 + WholeFrames(rs[1..], n - |Frame(rs[0])|)
  }

  lemma {:induction false} WholeFramesExact(rs: seq<Record>, n: nat)
    ensures var k := WholeFrames(rs, n);
      |Frames(rs[..k])| <= n && (k < |rs| ==> n < |Frames(rs[..k + 1])|)
  {
    hide Frame;
    if rs != [] {
      if n < |Frame(rs[0])| {
        assert rs[..1][1..] == [];
      } else {
        var k := WholeFrames(rs[1..], n - |Frame(rs[0])|);
        WholeFramesExact(rs[1..], n - |Frame(rs[0])|);
        assert rs[..k + 1][1..] == rs[1..][..k];
        assert k + 1 < |rs| ==> rs[..k + 2][1..] == rs[1..][..k + 1];
      }
    }
  }

  /** Replaying any byte prefix of a log yields exactly the records whose frames lie wholly inside it. */
  lemma {:induction false} ReplayPrefix(rs: seq<Record>, n: nat)
    requires AllFit(rs) && n <= |Frames(rs)|
    ensures Replay(Frames(rs)[..n]) == rs[..WholeFrames(rs, n)]
  {
    hide ReadOne, Frame, Replay;
    if rs != [] {
      var size := |Frame(rs[0])|;
      if n < size {
        TornFrame(rs[0], n);
        assert Frames(rs)[..n] == Frame(rs[0])[..n];
      } else {
        var rest := Frames(rs[1..])[..n - size];
        assert Frames(rs)[..n] == Frame(rs[0]) + rest;
        ReplayFirst(rs[0], rest);
        ReplayPrefix(rs[1..], n - size);
        assert rs[..WholeFrames(rs, n)] == [rs[0]] + rs[1..][..WholeFrames(rs[1..], n - size)];
      }
    } else {
      ReplayStops(Frames(rs)[..n]);
    }
  }

  lemma ReplayFirst(r: Record, g: Bytes)
    requires Fits(r)
    ensures Replay(Frame(r) + g) == [r] + Replay(g)
    ensures Consumed(Frame(r) + g) == |Frame(r)| + Consumed(g)
  {
    hide ReadOne, Frame;
    FrameReads(r, g);
    assert (Frame(r) + g)[|Frame(r)|..] == g;
  }

  // ---- Appending to a log that recovery has reopened ---------------------------------------------

  /** An append to the log is seen by the next replay, for every record. */
  ghost predicate AppendsSurvive(log: Bytes) {
    forall r :: Fits(r) ==> Replay(log + Frame(r)) == Replay(log) + [r]
  }

  /** Recovery appends to the log where it ends, not where replay stopped. Records written from then on are
  safe exactly when replay got through the whole log; behind a torn tail they can be lost. */
  lemma AppendsSurviveIffIntact(log: Bytes)
    ensures AppendsSurvive(log) <==> Consumed(log) == |log|
  {
    if Consumed(log) == |log| {
      IntactAppends(log);
    } else {
      TornAppends(log);
    }
  }

  lemma IntactAppends(log: Bytes)
    requires Consumed(log) == |log|
    ensures AppendsSurvive(log)
  {
    hide ReadOne, Frame, Replay, Consumed, Frames, Fits, AllFit;
    forall r | Fits(r) ensures Replay(log + Frame(r)) == Replay(log) + [r] {
      ReplayBehind(log, Frame(r));
      assert log[Consumed(log)..] + Frame(r) == Frame(r);
      ReplayFrame(r);
    }
  }

  lemma TornAppends(log: Bytes)
    requires Consumed(log) < |log|
    ensures !AppendsSurvive(log)
  {
    hide ReadOne, Frame, Replay, Consumed, Frames, Fits, AllFit;
    ReplaySplits(log);
    var t := log[Consumed(log)..];
    var r := LostRecord(t);
    ReplayBehind(log, Frame(r));
    assert Replay(log + Frame(r))[|Replay(log)|..] == Replay(t + Frame(r));
    assert (Replay(log) + [r])[|Replay(log)|..] == [r];
  }

  lemma ReplayBehind(log: Bytes, g: Bytes)
    ensures Replay(log + g) == Replay(log) + Replay(log[Consumed(log)..] + g)
  {
    hide ReadOne, Frame, Replay, Consumed, Frames;
    ReplaySplits(log);
    var t := log[Consumed(log)..];
    assert log + g == log[..Consumed(log)] + (t + g);
    ReplayCompose(Replay(log), t + g);
  }

  lemma ReplayFrame(r: Record)
    requires Fits(r)
    ensures Replay(Frame(r)) == [r]
  {
    hide ReadOne, Frame;
    assert Frame(r) + [] == Frame(r);
    FrameReads(r, []);
    assert Frame(r)[|Frame(r)|..] == [];
    assert ReadOne([]).Stop?;
  }

  /** Behind a tail that does not read, there is a record the replay does not give back. */
  lemma LostRecord(t: Bytes) returns (r: Record)
    requires t != [] && ReadOne(t).Stop?
    ensures Fits(r) && Replay(t + Frame(r)) != [r]
  {
    hide Crc32.Checksum, PutFixed32, DecodeFixed32, ReadOne;
    var zeros: Bytes := seq(|t|, _ => 0);
    r := if |t| < 1000 then Record(KIND_VALUE, [], zeros + [1]) else Record(KIND_VALUE, [], []);
    var s := t + Frame(r);
    if |t| < 1000 {
      var last := |Frame(r)| - 1;
      assert s[last] == Frame(r)[last - |t|] == 0;
      assert Frame(r)[last] == 1;
    } else if s[..|Frame(r)|] == Frame(r) {
      assert t == Frame(r) + t[|Frame(r)|..];
      FrameReads(r, t[|Frame(r)|..]);
    }
    if ReadOne(s).Read? {
      ReadIsFrame(s);
      assert Replay(s)[0] == ReadOne(s).record;
    }
  }

  // ---- Damage ------------------------------------------------------------------------------------

  /** Behind a tail that does not read, the first record read, if any, reaches into what was appended. */
  lemma ReadReachesBehind(t: Bytes, g: Bytes)
    requires ReadOne(t).Stop? && ReadOne(t + g).Read?
    ensures ReadOne(t + g).size > |t|
  {
    hide Crc32.Checksum, PutFixed32, DecodeFixed32, ReadOne, Frame;
    var s, n := t + g, ReadOne(t + g).size;
    if n <= |t| {
      ReadIsFrame(s);
      assert s[..n] == t[..n];
      assert t == Frame(ReadOne(s).record) + t[n..];
      FrameReads(ReadOne(s).record, t[n..]);
    }
  }

  /** Behind any unreadable tail there are values of the empty key, as many as one wishes, whose frame does not bring
  them back. */
  lemma LostValue(t: Bytes, avoid: Bytes) returns (x: Bytes)
    requires t != [] && ReadOne(t).Stop?
    ensures x != avoid && Fits(Record(KIND_VALUE, [], x))
    ensures forall r :: r in Replay(t + Frame(Record(KIND_VALUE, [], x))) ==> r.key != [] || r.value != x
  {
    hide Crc32.Checksum, PutFixed32, DecodeFixed32, ReadOne, Replay;
    var zeros: Bytes := seq(|t|, _ => 0);
    var b: byte := if avoid == zeros + [1] then 2 else 1;
    x := if |t| < 1000 then zeros + [b] else if avoid == [] then [0] else [];
    assert (zeros + [1])[|t|] == 1 && (zeros + [b])[|t|] == b;
    var w := Record(KIND_VALUE, [], x);
    var s := t + Frame(w);
    ReplayUnfold(s);
    if ReadOne(s).Read? {
      var first, n := ReadOne(s).record, ReadOne(s).size;
      ReadReachesBehind(t, Frame(w));
      ReadIsFrame(s);
      assert first.key != [] || first.value != x by {
        if first.key == [] && first.value == x {
          SameSizeFrames(first, w);
          if |t| < 1000 {
            ShiftedFrame(t, w, first, zeros, b);
          }
        }
      }
      forall r | r in Replay(s[n..]) ensures r.key != [] || r.value != x {
        ReplayFits(s[n..], r);
        SameSizeFrames(r, w);
      }
    }
  }

  lemma ReplayUnfold(s: Bytes)
    ensures ReadOne(s).Stop? ==> Replay(s) == []
    ensures ReadOne(s).Read? ==> Replay(s) == [ReadOne(s).record] + Replay(s[ReadOne(s).size..])
  {
    hide ReadOne;
  }

  lemma SameSizeFrames(r: Record, w: Record)
    ensures |r.key| == |w.key| && |r.value| == |w.value| ==> |Frame(r)| == |Frame(w)|
  {
    hide Crc32.Checksum, PutFixed32;
  }

  /** A frame of w that ends in zeros and b does not start |t| bytes early. */
  lemma ShiftedFrame(t: Bytes, w: Record, first: Record, zeros: Bytes, b: byte)
    requires t != [] && |zeros| == |t| && (forall i :: 0 <= i < |zeros| ==> zeros[i] == 0) && b != 0
    requires w == Record(KIND_VALUE, [], zeros + [b]) && first.key == [] && first.value == w.value
    ensures Frame(first) != (t + Frame(w))[..|Frame(first)|]
  {
    hide Crc32.Checksum, PutFixed32;
    var s, last := t + Frame(w), |Frame(w)| - 1;
    assert Frame(first)[last] == b;
    assert s[last] == Frame(w)[last - |t|] == 0;
  }

  /** Every record of a replay takes as many bytes as its frame. */
  lemma {:induction false} ReplayFits(s: Bytes, r: Record)
    requires r in Replay(s)
    ensures |Frame(r)| <= |s|
    decreases |s|
  {
    hide ReadOne, Frame;
    if r != ReadOne(s).record {
      ReplayFits(s[ReadOne(s).size..], r);
    } else {
      ReadIsFrame(s);
    }
  }

  /** A frame whose payload or checksum field was damaged within four consecutive bytes stops the replay: the
  records before it are recovered, and it and everything after it are not. */
  lemma DamagedFrameStopsReplay(rs: seq<Record>, r: Record, damaged: Bytes, at: nat, g: Bytes)
    requires AllFit(rs) && Fits(r)
    requires Crc32.DiffersWithin(Frame(r), damaged, at)
    requires at == 0 || at >= HEADER_SIZE
    ensures Replay(Frames(rs) + damaged + g) == rs
  {
    hide ReadOne, Frame, Frames;
    DamagedFrameUnreadable(r, damaged, at, g);
    assert Frames(rs) + damaged + g == Frames(rs) + (damaged + g);
    ReplayCompose(rs, damaged + g);
  }

  lemma DamagedFrameUnreadable(r: Record, damaged: Bytes, at: nat, g: Bytes)
    requires Fits(r)
    requires Crc32.DiffersWithin(Frame(r), damaged, at)
    requires at == 0 || at >= HEADER_SIZE
    ensures ReadOne(damaged + g).Stop?
  {
    hide Crc32.Checksum, PutFixed32, DecodeFixed32, ParsePayload, Payload;
    var p := Payload(r);
    var s := damaged + g;
    var f := Frame(r);
    assert s[4..][..4] == PutFixed32(|p|);
    assert s[4..] == PutFixed32(|p|) + s[8..];
    Fixed32RoundTrip(|p|, s[8..]);
    assert DecodeFixed32(s) != Crc32.Checksum(s[HEADER_SIZE..HEADER_SIZE + |p|]) by {
      if at >= HEADER_SIZE {
        DamagedPayload(r, damaged, at, g);
      } else {
        DamagedChecksum(r, damaged, g);
      }
    }
  }

  lemma DamagedPayload(r: Record, damaged: Bytes, at: nat, g: Bytes)
    requires Crc32.DiffersWithin(Frame(r), damaged, at) && at >= HEADER_SIZE
    ensures DecodeFixed32(damaged + g) != Crc32.Checksum((damaged + g)[HEADER_SIZE..HEADER_SIZE + |Payload(r)|])
  {
    hide Crc32.Checksum, PutFixed32, DecodeFixed32, Payload;
    var p, s, f := Payload(r), damaged + g, Frame(r);
    var p' := s[HEADER_SIZE..HEADER_SIZE + |p|];
    assert forall j :: 0 <= j < 8 ==> f[j] == damaged[j];
    assert s == PutFixed32(Crc32.Checksum(p)) + s[4..];
    Fixed32RoundTrip(Crc32.Checksum(p), s[4..]);
    assert f == f[..8] + p && damaged == f[..8] + p';
    assert Crc32.DiffersWithin(p, p', at - HEADER_SIZE);
    Crc32.BurstChangesChecksum(p, p', at - HEADER_SIZE);
  }

  lemma DamagedChecksum(r: Record, damaged: Bytes, g: Bytes)
    requires Crc32.DiffersWithin(Frame(r), damaged, 0)
    ensures DecodeFixed32(damaged + g) != Crc32.Checksum((damaged + g)[HEADER_SIZE..HEADER_SIZE + |Payload(r)|])
  {
    hide Crc32.Checksum, PutFixed32, DecodeFixed32, Payload;
    var p, s, f := Payload(r), damaged + g, Frame(r);
    assert s[HEADER_SIZE..HEADER_SIZE + |p|] == p;
    assert f[..4] == PutFixed32(Crc32.Checksum(p));
    Fixed32Inverse(s);
    assert s[..4] == damaged[..4];
    assert f == f[..4] + f[4..] && damaged == damaged[..4] + f[4..];
  }
}
