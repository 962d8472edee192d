/** Decoding a batch of inotify events: variable-length records one after the other
    in a byte buffer, the last one possibly cut off. Numbers are little-endian. */
module Inotify {
  type byte = x: int | 0 <= x < 256
  type word = x: int | 0 <= x < 0x1_0000_0000
  type int32 = x: int | -0x8000_0000 <= x < 0x8000_0000

  const HEADER := 16

  /** The name field comes with its padding. */
  datatype Record = Record(wd: int32, mask: word, cookie: word, field: seq<byte>)

  predicate Valid(r: Record) {
    |r.field| < 0x1_0000_0000
  }

  // ---- Numbers ----

  function WordAt(b: seq<byte>, i: nat): word
    requires i + 4 <= |b|
  {
    b[i] as int + 0x100 * b[i + 1] as int + 0x1_0000 * b[i + 2] as int + 0x100_0000 * b[i + 3] as int
  }

  function Bytes(w: word): (b: seq<byte>)
    ensures |b| == 4
  {
    [w % 0x100, w / 0x100 % 0x100, w / 0x1_0000 % 0x100, w / 0x100_0000]
  }

  function Signed(w: word): int32 {
    if w >= 0x8000_0000 then w - 0x1_0000_0000 else w
  }

  function Unsigned(i: int32): word {
    if i < 0 then i + 0x1_0000_0000 else i
  }

  lemma {:induction false} WordOfBytes(w: word)
    ensures WordAt(Bytes(w), 0) == w
  {
    var a, b, c := w / 0x100, w / 0x1_0000, w / 0x100_0000;
    assert b == a / 0x100 && c == b / 0x100;
  }

  lemma {:induction false} Digits(b0: int, b1: int, b2: int, b3: int, w: int)
    requires 0 <= b0 < 0x100 && 0 <= b1 < 0x100 && 0 <= b2 < 0x100 && 0 <= b3 < 0x100
    requires w == b0 + 0x100 * b1 + 0x1_0000 * b2 + 0x100_0000 * b3
    ensures w % 0x100 == b0 && w / 0x100 % 0x100 == b1 && w / 0x1_0000 % 0x100 == b2 && w / 0x100_0000 == b3
  {
    assert w / 0x100 == b1 + 0x100 * b2 + 0x1_0000 * b3;
    assert w / 0x1_0000 == b2 + 0x100 * b3;
  }

  lemma {:induction false} BytesOfWord(b: seq<byte>, i: nat)
    requires i + 4 <= |b|
    ensures Bytes(WordAt(b, i)) == b[i..i + 4]
  {
    Digits(b[i], b[i + 1], b[i + 2], b[i + 3], WordAt(b, i));
    hide WordAt;
  }

  lemma {:induction false} SameWord(a: seq<byte>, i: nat, b: seq<byte>, j: nat)
    requires i + 4 <= |a| && j + 4 <= |b| && a[i..i + 4] == b[j..j + 4]
    ensures WordAt(a, i) == WordAt(b, j)
  {
    var x, y := a[i..i + 4], b[j..j + 4];
    assert x[0] == y[0] && x[1] == y[1] && x[2] == y[2] && x[3] == y[3];
  }

  // ---- The format ----

  function Header(r: Record): (h: seq<byte>)
    requires Valid(r)
    ensures |h| == HEADER
  {
    Bytes(Unsigned(r.wd)) + Bytes(r.mask) + Bytes(r.cookie) + Bytes(|r.field|)
  }

  function Encode(rs: seq<Record>): seq<byte>
    requires forall i :: 0 <= i < |rs| ==> Valid(rs[i])
  {
    if rs == [] then [] else Header(rs[0]) + rs[0].field + Encode(rs[1..])
  }

  /** Too short for a header, or for the name that its header announces. */
  predicate Truncated(b: seq<byte>) {
    |b| < HEADER || |b| < HEADER + WordAt(b, 12)
  }

  function FirstRecord(b: seq<byte>): (r: Record)
    requires !Truncated(b)
    ensures Valid(r) && |r.field| == WordAt(b, 12)
  {
    Record(Signed(WordAt(b, 0)), WordAt(b, 4), WordAt(b, 8), b[HEADER..HEADER + WordAt(b, 12)])
  }

  datatype Parsed = Parsed(records: seq<Record>, rest: seq<byte>)

  function Decode(b: seq<byte>): (p: Parsed)
    ensures forall i :: 0 <= i < |p.records| ==> Valid(p.records[i])
    decreases |b|
  {
    if Truncated(b) then Parsed([], b)
    else
      var p := Decode(b[HEADER + WordAt(b, 12)..]);
      Parsed([FirstRecord(b)] + p.records, p.rest)
  }

  // ---- Decoding and encoding undo each other ----

  lemma {:induction false} HeaderWords(r: Record, tail: seq<byte>)
    requires Valid(r)
    ensures var b := Header(r) + tail;
            && WordAt(b, 0) == Unsigned(r.wd) && WordAt(b, 4) == r.mask
            && WordAt(b, 8) == r.cookie && WordAt(b, 12) == |r.field|
  {
    hide Bytes, WordAt;
    var b := Header(r) + tail;
    WordOfBytes(Unsigned(r.wd));
    WordOfBytes(r.mask);
    WordOfBytes(r.cookie);
    WordOfBytes(|r.field|);
    assert b[0..4] == Bytes(Unsigned(r.wd))[0..4];
    assert b[4..8] == Bytes(r.mask)[0..4];
    assert b[8..12] == Bytes(r.cookie)[0..4];
    assert b[12..16] == Bytes(|r.field|)[0..4];
    SameWord(b, 0, Bytes(Unsigned(r.wd)), 0);
    SameWord(b, 4, Bytes(r.mask), 0);
    SameWord(b, 8, Bytes(r.cookie), 0);
    SameWord(b, 12, Bytes(|r.field|), 0);
  }

  /** What stands first is decoded first. */
  lemma {:induction false} DecodeRecord(r: Record, more: seq<byte>)
    requires Valid(r)
    ensures var b := Header(r) + (r.field + more);
            Decode(b) == Parsed([r] + Decode(more).records, Decode(more).rest)
  {
    hide WordAt, Header;
    var b := Header(r) + (r.field + more);
    HeaderWords(r, r.field + more);
    assert b[HEADER..HEADER + |r.field|] == r.field;
    assert b[HEADER + |r.field|..] == more;
  }

  /** Decoding a list of records and any cut-off rest gives back both. */
  lemma {:induction false} DecodeUndoesEncode(rs: seq<Record>, rest: seq<byte>)
    requires (forall i :: 0 <= i < |rs| ==> Valid(rs[i])) && Truncated(rest)
    ensures Decode(Encode(rs) + rest) == Parsed(rs, rest)
  {
    hide WordAt, Header, FirstRecord;
    if rs == [] {
      assert Encode(rs) + rest == rest;
    } else {
      var r, more := rs[0], Encode(rs[1..]) + rest;
      DecodeUndoesEncode(rs[1..], rest);
      DecodeRecord(r, more);
      hide Decode, Truncated;
      assert Encode(rs) + rest == Header(r) + (r.field + more);
      assert rs == [rs[0]] + rs[1..];
    }
  }

  lemma {:induction false} HeaderOfFirst(b: seq<byte>)
    requires !Truncated(b)
    ensures Header(FirstRecord(b)) == b[..HEADER]
  {
    hide Bytes, WordAt;
    BytesOfWord(b, 0);
    BytesOfWord(b, 4);
    BytesOfWord(b, 8);
    BytesOfWord(b, 12);
    assert b[..HEADER] == b[0..0 + 4] + b[4..4 + 4] + b[8..8 + 4] + b[12..12 + 4];
  }

  /** Whatever the bytes, encoding what was decoded and adding the rest gives them back:
      no byte is skipped, read twice or made up, and the rest is cut off indeed. */
  lemma {:induction false} EncodeUndoesDecode(b: seq<byte>)
    ensures Encode(Decode(b).records) + Decode(b).rest == b
    ensures Truncated(Decode(b).rest)
    decreases |b|
  {
    if Truncated(b) {
      assert Decode(b).records == [];
    } else {
      var n := HEADER + WordAt(b, 12);
      EncodeUndoesDecode(b[n..]);
      EncodeStep(b, n);
    }
  }

  lemma {:induction false} DecodeFirst(b: seq<byte>, n: nat)
    requires !Truncated(b) && n == HEADER + WordAt(b, 12)
    ensures Decode(b) == Parsed([FirstRecord(b)] + Decode(b[n..]).records, Decode(b[n..]).rest)
    ensures FirstRecord(b).field == b[HEADER..n]
  {
    hide WordAt;
  }

  lemma {:induction false} EncodeFirst(r: Record, rs: seq<Record>)
    requires Valid(r) && forall i :: 0 <= i < |rs| ==> Valid(rs[i])
    ensures Encode([r] + rs) == Header(r) + r.field + Encode(rs)
  {
    hide Header, Valid;
    assert ([r] + rs)[1..] == rs;
  }

  lemma {:induction false} EncodeStep(b: seq<byte>, n: nat)
    requires !Truncated(b) && n == HEADER + WordAt(b, 12)
    requires Encode(Decode(b[n..]).records) + Decode(b[n..]).rest == b[n..]
    ensures Encode(Decode(b).records) + Decode(b).rest == b && Decode(b).rest == Decode(b[n..]).rest
  {
    assert n <= |b|;
    hide *;
    DecodeFirst(b, n);
    HeaderOfFirst(b);
    EncodeFirst(FirstRecord(b), Decode(b[n..]).records);
    ThreeParts(b, n, Encode(Decode(b[n..]).records), Decode(b[n..]).rest);
  }

  lemma {:induction false} ThreeParts(b: seq<byte>, n: nat, mid: seq<byte>, rest: seq<byte>)
    requires HEADER <= n <= |b| && mid + rest == b[n..]
    ensures b[..HEADER] + b[HEADER..n] + mid + rest == b
  {
    assert b[..HEADER] + b[HEADER..n] + mid + rest == b[..HEADER] + b[HEADER..n] + (mid + rest);
  }

  // ---- What is reported ----

  function IndexOfZero(b: seq<byte>): (i: int)
    ensures -1 <= i < |b|
  {
    if b == [] then -1
    else if b[0] == 0 then 0
    else
      var i := IndexOfZero(b[1..]);
      if i < 0 then -1 else i + 1
  }

  /** It is the first zero; -1 if there is none. */
  lemma {:induction false} FirstZero(b: seq<byte>, i: int)
    requires -1 <= i < |b|
    requires i >= 0 ==> b[i] == 0
    requires forall k :: 0 <= k < (if i < 0 then |b| else i) ==> b[k] != 0
    ensures IndexOfZero(b) == i
  {
    if b != [] && b[0] != 0 {
      FirstZero(b[1..], if i < 0 then -1 else i - 1);
    }
  }

  method FindZero(b: seq<byte>) returns (i: int)
    ensures i == IndexOfZero(b)
  {
    for k := 0 to |b|
      invariant forall j :: 0 <= j < k ==> b[j] != 0
    {
      if b[k] == 0 {
        FirstZero(b, k);
        return k;
      }
    }
    FirstZero(b, -1);
    i := -1;
  }

  /** The name without its padding. */
  function NameOf(field: seq<byte>): seq<byte> {
    var i := IndexOfZero(field);
    if i >= 0 then field[..i] else field
  }

  /** dir is the watched path, empty if the watch is not known; name is what the source
      joins to it. */
  datatype AuditEvent = AuditEvent(dir: string, name: seq<byte>, mask: word, cookie: word)

  function EventOf(r: Record, wdToPath: map<int32, string>): AuditEvent {
    AuditEvent(if r.wd in wdToPath then wdToPath[r.wd] else "", NameOf(r.field), r.mask, r.cookie)
  }

  function EventsOf(rs: seq<Record>, wdToPath: map<int32, string>): (es: seq<AuditEvent>)
    ensures |es| == |rs|
  {
    if rs == [] then [] else [EventOf(rs[0], wdToPath)] + EventsOf(rs[1..], wdToPath)
  }

  lemma {:induction false} EventsOfAt(rs: seq<Record>, wdToPath: map<int32, string>, i: nat)
    requires i < |rs|
    ensures EventsOf(rs, wdToPath)[i] == EventOf(rs[i], wdToPath)
  {
    hide EventOf;
    if i > 0 {
      EventsOfAt(rs[1..], wdToPath, i - 1);
    }
  }

  /** What is still to be reported from an offset on. */
  ghost function Pending(b: seq<byte>, offset: nat, wdToPath: map<int32, string>): seq<AuditEvent>
    requires offset <= |b|
  {
    EventsOf(Decode(b[offset..]).records, wdToPath)
  }

  /** The event at an offset, read in place. */
  function EventAt(b: seq<byte>, offset: nat, wdToPath: map<int32, string>): AuditEvent
    requires offset + HEADER <= |b| && offset + HEADER + WordAt(b, offset + 12) <= |b|
  {
    var wd, start := Signed(WordAt(b, offset)), offset + HEADER;
    AuditEvent(if wd in wdToPath then wdToPath[wd] else "", NameOf(b[start..start + WordAt(b, offset + 12)]),
               WordAt(b, offset + 4), WordAt(b, offset + 8))
  }

  /** The offset loop. Every access lies within the bytes that were read. */
  method DecodeInotifyBatch(buf: seq<byte>, wdToPath: map<int32, string>) returns (events: seq<AuditEvent>)
    ensures events == EventsOf(Decode(buf).records, wdToPath)
  {
    hide WordAt, EventAt, EventsOf, Decode, Pending;
    PendingAll(buf, wdToPath);
    events := [];
    var offset := 0;
    while offset + HEADER <= |buf|
      invariant 0 <= offset <= |buf|
      invariant Pending(buf, 0, wdToPath) == events + Pending(buf, offset, wdToPath)
      decreases |buf| - offset
    {
      var nameLen := WordAt(buf, offset + 12);
      if offset + HEADER + nameLen > |buf| {
        break;
      }
      var event := ReadEvent(buf, offset, nameLen, wdToPath);
      PendingNext(buf, offset, wdToPath);
      Regroup(events, event, Pending(buf, offset + HEADER + nameLen, wdToPath));
      events := events + [event];
      offset := offset + HEADER + nameLen;
    }
    PendingNothing(buf, offset, wdToPath);
  }

  method ReadEvent(buf: seq<byte>, offset: nat, nameLen: nat, wdToPath: map<int32, string>) returns (event: AuditEvent)
    requires offset + HEADER + nameLen <= |buf| && nameLen == WordAt(buf, offset + 12)
    ensures event == EventAt(buf, offset, wdToPath)
  {
    hide WordAt, Signed, NameOf;
    var wd := Signed(WordAt(buf, offset));
    var path := if wd in wdToPath then wdToPath[wd] else "";
    var nameStart := offset + HEADER;
    var nameBytes := buf[nameStart..nameStart + nameLen];
    var name := Unpadded(nameBytes);
    event := AuditEvent(path, name, WordAt(buf, offset + 4), WordAt(buf, offset + 8));
  }

  lemma {:induction false} Regroup(a: seq<AuditEvent>, e: AuditEvent, b: seq<AuditEvent>)
    ensures a + ([e] + b) == (a + [e]) + b
  {
  }

  lemma {:induction false} WordInRest(b: seq<byte>, offset: nat, k: nat)
    requires offset + k + 4 <= |b|
    ensures WordAt(b[offset..], k) == WordAt(b, offset + k)
  {
    assert b[offset..][k..k + 4] == b[offset + k..offset + k + 4];
    SameWord(b[offset..], k, b, offset + k);
  }

  lemma {:induction false} PendingAll(b: seq<byte>, wdToPath: map<int32, string>)
    ensures Pending(b, 0, wdToPath) == EventsOf(Decode(b).records, wdToPath)
  {
    assert b[0..] == b;
  }

  lemma {:induction false} PendingNothing(b: seq<byte>, offset: nat, wdToPath: map<int32, string>)
    requires offset <= |b|
    requires |b| < offset + HEADER || |b| < offset + HEADER + WordAt(b, offset + 12)
    ensures Pending(b, offset, wdToPath) == []
  {
    hide WordAt;
    if offset + HEADER <= |b| {
      WordInRest(b, offset, 12);
    }
  }

  lemma {:induction false} PendingNext(b: seq<byte>, offset: nat, wdToPath: map<int32, string>)
    requires offset + HEADER <= |b| && offset + HEADER + WordAt(b, offset + 12) <= |b|
    ensures Pending(b, offset, wdToPath)
         == [EventAt(b, offset, wdToPath)] + Pending(b, offset + HEADER + WordAt(b, offset + 12), wdToPath)
  {
    hide WordAt, NameOf, Signed, Decode;
    WordInRest(b, offset, 0);
    WordInRest(b, offset, 4);
    WordInRest(b, offset, 8);
    WordInRest(b, offset, 12);
    var raw, n := b[offset..], HEADER + WordAt(b, offset + 12);
    DecodeFirst(raw, n);
    assert raw[n..] == b[offset + n..];
    assert raw[HEADER..n] == b[offset + HEADER..offset + n];
    var r, rs := FirstRecord(raw), Decode(raw[n..]).records;
    assert ([r] + rs)[1..] == rs;
  }

  method Unpadded(nameBytes: seq<byte>) returns (name: seq<byte>)
    ensures name == NameOf(nameBytes)
  {
    name := nameBytes;
    if |nameBytes| > 0 {
      var i := FindZero(nameBytes);
      if i >= 0 {
        name := nameBytes[..i];
      }
    }
  }

  // ---- From watched files to events ----

  function Zeros(k: nat): (z: seq<byte>)
    ensures |z| == k && forall i :: 0 <= i < k ==> z[i] == 0
  {
    if k == 0 then [] else [0] + Zeros(k - 1)
  }

  /** Padding of any length, also none, leaves a name without NULs as it is. */
  lemma {:induction false} PaddingIsInvisible(name: seq<byte>, k: nat)
    requires forall i :: 0 <= i < |name| ==> name[i] != 0
    ensures NameOf(name + Zeros(k)) == name
  {
    var field := name + Zeros(k);
    FirstZero(field, if k > 0 then |name| else -1);
  }

  /** Main result: from the bytes that the kernel writes for some events, and whatever
      part of a further one, the loop reports exactly those events, with the names as
      they were before padding. */
  lemma {:induction false} ReportsWhatWasWritten(rs: seq<Record>, names: seq<seq<byte>>, pads: seq<nat>,
                                                 rest: seq<byte>, wdToPath: map<int32, string>)
    requires |names| == |rs| && |pads| == |rs| && Truncated(rest)
    requires forall i :: 0 <= i < |rs| ==> Valid(rs[i]) && rs[i].field == names[i] + Zeros(pads[i])
    requires forall i, j :: 0 <= i < |rs| && 0 <= j < |names[i]| ==> names[i][j] != 0
    ensures var es := EventsOf(Decode(Encode(rs) + rest).records, wdToPath);
            && |es| == |rs|
            && forall i :: 0 <= i < |rs| ==>
                 es[i] == AuditEvent(if rs[i].wd in wdToPath then wdToPath[rs[i].wd] else "", names[i], rs[i].mask, rs[i].cookie)
  {
    hide Decode, Encode, NameOf, Truncated;
    DecodeUndoesEncode(rs, rest);
    forall i | 0 <= i < |rs|
      ensures EventsOf(rs, wdToPath)[i] == EventOf(rs[i], wdToPath) && NameOf(rs[i].field) == names[i]
    {
      EventsOfAt(rs, wdToPath, i);
      PaddingIsInvisible(names[i], pads[i]);
    }
  }
}
