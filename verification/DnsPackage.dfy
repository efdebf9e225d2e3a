/** Reading and writing domain-name messages step by step, as ec_dns.h does. */
module DnsPackage {
  import opened Octets
  import opened DnsMessage

  // ---------------------------------------------------------------- reading

  /** What is read when `front` has been read already. */
  function After<T>(front: seq<T>, r: Reading<seq<T>>): Reading<seq<T>> {
    if r.Read? then Read(front + r.value, r.end) else r
  }

  method ParsePtrLabel(npos: nat, pkg: Bytes, name: Bytes) returns (r: Reading<Bytes>)
    requires npos <= |pkg|
    ensures r == Pointed(pkg, npos, name, false)
  {
    var nlen, n, s := npos, 0, name;
    while nlen < |pkg| && pkg[nlen] != 0 && pkg[nlen] < 0x40
      invariant npos <= nlen <= |pkg|
      invariant Pointed(pkg, npos, name, false) == Pointed(pkg, nlen, s, n > 0)
      decreases |pkg| - nlen
    {
      var nl := pkg[nlen];
      if nl + nlen >= |pkg| {
        return Failed;
      }
      if n > 0 {
        s := s + [DOT];
      }
      s := s + pkg[nlen + 1..nlen + 1 + nl];
      nlen := nlen + nl + 1;
      n := n + 1;
    }
    r := if nlen == |pkg| then Beyond else Read(s, nlen);
  }

  /** One label at p, or the labels a pointer at p leads to; `bend` tells that the name is over. */
  method ParseLabel(pkg: Bytes, p: nat, name: Bytes) returns (r: Reading<Bytes>, bend: bool)
    requires p < |pkg| && pkg[p] != 0
    ensures bend <==> pkg[p] >= 0x40
    ensures !bend && p + pkg[p] + 1 > |pkg| ==> r == Failed
    ensures !bend && p + pkg[p] + 1 <= |pkg| ==> r == Read(name + pkg[p + 1..p + 1 + pkg[p]], p + pkg[p] + 1)
    ensures bend && p + 2 < |pkg| ==> r == FollowedPointer(pkg, p, name)
    ensures bend && p + 2 >= |pkg| ==> r == Failed || (r == Beyond) || (r.Read? && r.end == p + 2)
  {
    bend := false;
    if pkg[p] < 0x40 {
      if pkg[p] >= |pkg| - p {
        return Failed, bend;
      }
      r := Read(name + pkg[p + 1..p + 1 + pkg[p]], p + pkg[p] + 1);
    } else {
      bend := true;
      if p + 1 == |pkg| {
        // The second byte of the pointer is behind the packet; whatever it is, the name fails.
        return Beyond, bend;
      }
      var npos := Big(pkg[p] % 0x40, pkg[p + 1]);
      if npos >= |pkg| {
        return Failed, bend;
      }
      r := ParsePtrLabel(npos, pkg, name);
      if r.Read? {
        r := Read(r.value, p + 2);
      }
    }
  }

  method ParseName(pkg: Bytes, at: nat) returns (r: Reading<Bytes>)
    ensures r == NameAt(pkg, at)
  {
    if at >= |pkg| {
      return Failed;
    }
    var p, nf, s := at, 0, [];
    while pkg[p] != 0
      invariant at <= p < |pkg|
      invariant NameAt(pkg, at) == NameFrom(pkg, p, s, nf > 0)
      decreases |pkg| - p
    {
      if nf > 0 {
        s := s + [DOT];
      }
      var lab, bend := ParseLabel(pkg, p, s);
      if lab.Failed? {
        return Failed;
      }
      if bend {
        // len <= 0 behind the pointer
        return if p + 2 >= |pkg| then Failed else lab;
      }
      p, s := lab.end, lab.value;
      if p >= |pkg| {
        return Failed;
      }
      nf := nf + 1;
    }
    return Read(s, p + 1);
  }

  /** `all` is what `front` and n more items from p on make. */
  ghost predicate ReadSoFar<T>(all: Reading<seq<T>>, read: (Bytes, nat) -> Reading<T>, pkg: Bytes, front: seq<T>, p: nat, n: nat) {
    all == After(front, ListAt(read, pkg, p, n))
  }

  lemma {:induction false} ReadingStarts<T>(read: (Bytes, nat) -> Reading<T>, pkg: Bytes, at: nat, n: nat)
    ensures ReadSoFar(ListAt(read, pkg, at, n), read, pkg, [], at, n)
  {
    var r := ListAt(read, pkg, at, n);
    if r.Read? {
      assert [] + r.value == r.value;
    }
  }

  lemma {:induction false} ReadingGoesOn<T>(all: Reading<seq<T>>, read: (Bytes, nat) -> Reading<T>, pkg: Bytes,
                                            front: seq<T>, p: nat, n: nat, one: Reading<T>)
    requires n > 0 && one == read(pkg, p) && ReadSoFar(all, read, pkg, front, p, n)
    ensures one.Read? ==> ReadSoFar(all, read, pkg, front + [one.value], one.end, n - 1)
    ensures one.Failed? ==> all == Failed
    ensures one.Beyond? ==> all == Beyond
  {
    if one.Read? {
      var more := ListAt(read, pkg, one.end, n - 1);
      if more.Read? {
        assert front + ([one.value] + more.value) == (front + [one.value]) + more.value;
      }
    }
  }

  lemma {:induction false} ReadingEnds<T>(all: Reading<seq<T>>, read: (Bytes, nat) -> Reading<T>, pkg: Bytes, front: seq<T>, p: nat)
    requires ReadSoFar(all, read, pkg, front, p, 0)
    ensures all == Read(front, p)
  {
    assert front + [] == front;
  }

  method ParseQuestion(pkg: Bytes, at: nat) returns (r: Reading<Question>)
    requires at <= |pkg|
    ensures r == QuestionAt(pkg, at)
  {
    var name := ParseName(pkg, at);
    if !name.Read? {
      return if name.Failed? then Failed else Beyond;
    }
    var p := name.end;
    if |pkg| - p < 2 {
      return Failed;
    }
    var qtype := U16At(pkg, p);
    p := p + 2;
    if |pkg| - p < 2 {
      return Failed;
    }
    var qclass := U16At(pkg, p);
    r := Read(Question(name.value, qtype, qclass), p + 2);
  }

  method ParseQuestions(pkg: Bytes, at: nat, count: nat) returns (r: Reading<seq<Question>>)
    requires at <= |pkg|
    ensures r == ListAt(QuestionAt, pkg, at, count)
    ensures r.Read? ==> r.end <= |pkg|
  {
    var pu: nat, nq: nat := at, 0;
    var questions: seq<Question> := [];
    ghost var all := ListAt(QuestionAt, pkg, at, count);
    ReadingStarts(QuestionAt, pkg, at, count);
    while nq < count
      invariant nq <= count && pu <= |pkg|
      invariant ReadSoFar(all, QuestionAt, pkg, questions, pu, count - nq)
    {
      var qd := ParseQuestion(pkg, pu);
      ReadingGoesOn(all, QuestionAt, pkg, questions, pu, count - nq, qd);
      if !qd.Read? {
        return if qd.Failed? then Failed else Beyond;
      }
      questions := questions + [qd.value];
      pu, nq := qd.end, nq + 1;
    }
    ReadingEnds(all, QuestionAt, pkg, questions, pu);
    r := Read(questions, pu);
  }

  method ParseRecordFields(pkg: Bytes, end: nat, name: Bytes) returns (r: Reading<Record>)
    requires end <= |pkg|
    ensures r == RecordFrom(pkg, end, name)
  {
    if |pkg| - end < 2 {
      return Failed;
    }
    var qtype := U16At(pkg, end);
    if |pkg| - (end + 2) < 2 {
      return Failed;
    }
    var qclass := U16At(pkg, end + 2);
    if |pkg| - (end + 4) < 4 {
      return Failed;
    }
    var ttl := I32At(pkg, end + 4);
    if |pkg| - (end + 8) < 2 {
      return Failed;
    }
    var rdlen := U16At(pkg, end + 8);
    if |pkg| - (end + 10) < rdlen {
      return Failed;
    }
    r := Read(Record(name, qtype, qclass, ttl, pkg[end + 10..end + 10 + rdlen]), end + 10 + rdlen);
  }

  method ParseResourceRecord(pkg: Bytes, at: nat) returns (r: Reading<Record>)
    requires at <= |pkg|
    ensures r == RecordAt(pkg, at)
  {
    var name := ParseName(pkg, at);
    if !name.Read? {
      return if name.Failed? then Failed else Beyond;
    }
    r := ParseRecordFields(pkg, name.end, name.value);
  }

  method ParseResourceRecords(pkg: Bytes, at: nat, count: nat) returns (r: Reading<seq<Record>>)
    requires at <= |pkg|
    ensures r == ListAt(RecordAt, pkg, at, count)
    ensures r.Read? ==> r.end <= |pkg|
  {
    var pu: nat, nrd: nat := at, 0;
    var records: seq<Record> := [];
    ghost var all := ListAt(RecordAt, pkg, at, count);
    ReadingStarts(RecordAt, pkg, at, count);
    while nrd < count
      invariant nrd <= count && pu <= |pkg|
      invariant ReadSoFar(all, RecordAt, pkg, records, pu, count - nrd)
    {
      var rd := ParseResourceRecord(pkg, pu);
      ReadingGoesOn(all, RecordAt, pkg, records, pu, count - nrd, rd);
      if !rd.Read? {
        return if rd.Failed? then Failed else Beyond;
      }
      records := records + [rd.value];
      pu, nrd := rd.end, nrd + 1;
    }
    ReadingEnds(all, RecordAt, pkg, records, pu);
    r := Read(records, pu);
  }

  // ---------------------------------------------------------------- writing

  /** A buffer with a position, as ec_stream.h has it; a write that does not fit fails. */
  class Stream {
    const buf: array<Byte>
    var pos: nat

    ghost predicate Valid()
      reads this
    {
      pos <= buf.Length
    }

    ghost function Written(): Bytes
      requires Valid()
      reads this, buf
    {
      buf[..pos]
    }

    constructor (buf: array<Byte>)
      ensures Valid() && this.buf == buf && pos == 0
    {
      this.buf := buf;
      pos := 0;
    }

    method Write(b: Bytes) returns (ok: bool)
      requires Valid()
      modifies this, buf
      ensures Valid()
      ensures ok <==> |old(Written())| + |b| <= buf.Length
      ensures Written() == if ok then old(Written()) + b else old(Written())
    {
      assert |Written()| == pos;
      if pos + |b| > buf.Length {
        return false;
      }
      for i := 0 to |b|
        invariant pos == old(pos)
        invariant buf[..pos] == old(buf[..pos])
        invariant buf[pos..pos + i] == b[..i]
      {
        buf[pos + i] := b[i];
      }
      assert buf[..pos + |b|] == buf[..pos] + buf[pos..pos + |b|];
      pos := pos + |b|;
      ok := true;
    }
  }

  /** Whether `e` can be written behind `w` into so many bytes. */
  predicate Fits(w: Bytes, e: Option<Bytes>, capacity: nat) {
    e.Some? && |w| + |e.value| <= capacity
  }

  /** What a writer promises: it succeeds exactly when everything fits, and then has written it. */
  ghost predicate Wrote(ok: bool, before: Bytes, after: Bytes, e: Option<Bytes>, capacity: nat) {
    (ok <==> Fits(before, e, capacity)) && (ok ==> after == before + e.value)
  }

  /** What is left of a name to write when `done` is written and `lab` is being collected. */
  ghost predicate NameSoFar(c: Bytes, done: Bytes, lab: Bytes, rest: Bytes) {
    && |lab| <= MAXLABEL
    && var e := Emitted(lab, rest);
       Emitted([], c) == if e.Some? then Some(done + e.value) else None
  }

  lemma {:induction false} LabelDone(c: Bytes, done: Bytes, pc: nat, i: nat, lab: Bytes)
    requires pc <= i < |c| && lab == c[pc..i] && NameSoFar(c, done, lab, c[i..])
    requires c[i] == DOT || c[i] == AT
    ensures NameSoFar(c, done + Label(lab), c[i + 1..i + 1], c[i + 1..])
    ensures Emitted([], c).Some? ==> |done + Label(lab)| <= |Emitted([], c).value|
  {
    assert c[i..][1..] == c[i + 1..];
    var more := Emitted([], c[i + 1..]);
    if more.Some? {
      assert done + (Label(lab) + more.value) == (done + Label(lab)) + more.value;
    }
  }

  lemma {:induction false} NameStarts(c: Bytes)
    ensures NameSoFar(c, [], c[0..0], c[0..])
  {
    assert c[0..] == c;
    var e := Emitted([], c);
    if e.Some? {
      assert [] + e.value == e.value;
    }
  }

  lemma {:induction false} LetterTaken(c: Bytes, done: Bytes, pc: nat, i: nat)
    requires pc <= i < |c| && NameSoFar(c, done, c[pc..i], c[i..])
    requires c[i] != DOT && c[i] != AT
    ensures i + 1 - pc > MAXLABEL ==> Emitted([], c).None?
    ensures i + 1 - pc <= MAXLABEL ==> NameSoFar(c, done, c[pc..i + 1], c[i + 1..])
  {
    assert c[pc..i] + [c[i]] == c[pc..i + 1];
    assert c[i..][1..] == c[i + 1..];
  }

  lemma {:induction false} NameDone(c: Bytes, done: Bytes, lab: Bytes)
    requires NameSoFar(c, done, lab, [])
    ensures Emitted(lab, []).Some? && Emitted([], c) == Some(done + Emitted(lab, []).value)
  {
  }

  /** A label with its length in front, as two writes. */
  method WriteLabel(lab: Bytes, sout: Stream) returns (ok: bool)
    requires sout.Valid() && |lab| <= MAXLABEL
    modifies sout, sout.buf
    ensures sout.Valid()
    ensures Wrote(ok, old(sout.Written()), sout.Written(), Some(Label(lab)), sout.buf.Length)
  {
    ok := sout.Write([|lab|]);
    if ok {
      ok := sout.Write(lab);
    }
    assert ok ==> sout.Written() == old(sout.Written()) + Label(lab);
  }

  method WriteLastLabel(lab: Bytes, sout: Stream) returns (ok: bool)
    requires sout.Valid() && |lab| <= MAXLABEL
    modifies sout, sout.buf
    ensures sout.Valid()
    ensures Wrote(ok, old(sout.Written()), sout.Written(), Emitted(lab, []), sout.buf.Length)
  {
    ghost var before := sout.Written();
    ok := true;
    if |lab| > 0 {
      ok := WriteLabel(lab, sout);
    }
    if ok {
      ok := sout.Write([0]);
    }
    assert before + (Label(lab) + [0]) == (before + Label(lab)) + [0];
    assert before + ([] + [0]) == before + [0];
  }

  /** At a separator: the label before it is written. */
  method WriteSeparated(c: Bytes, pc: nat, i: nat, sout: Stream, ghost before: Bytes, ghost done: Bytes)
    returns (ok: bool, ghost more: Bytes)
    requires pc <= i < |c| && (c[i] == DOT || c[i] == AT) && NameSoFar(c, done, c[pc..i], c[i..])
    requires sout.Valid() && sout.Written() == before + done
    modifies sout, sout.buf
    ensures sout.Valid()
    ensures ok ==> sout.Written() == before + more && NameSoFar(c, more, c[i + 1..i + 1], c[i + 1..])
    ensures !ok ==> !Fits(before, Emitted([], c), sout.buf.Length)
  {
    var lab := c[pc..i];
    LabelDone(c, done, pc, i, lab);
    more := done + Label(lab);
    ok := WriteLabel(lab, sout);
    assert before + done + Label(lab) == before + more;
  }

  method SerializeName(s: Bytes, sout: Stream) returns (ok: bool)
    requires sout.Valid()
    modifies sout, sout.buf
    ensures sout.Valid()
    ensures Wrote(ok, old(sout.Written()), sout.Written(), EncodedName(s), sout.buf.Length)
  {
    ghost var before := sout.Written();
    ghost var done: Bytes := [];
    var c := CStr(s);
    if c == [] {
      return false;
    }
    var i, pc := 0, 0;
    assert before + [] == before;
    NameStarts(c);
    while i < |c|
      invariant 0 <= pc <= i <= |c|
      invariant sout.Valid() && sout.Written() == before + done
      invariant NameSoFar(c, done, c[pc..i], c[i..])
    {
      if c[i] == DOT || c[i] == AT {
        ok, done := WriteSeparated(c, pc, i, sout, before, done);
        if !ok {
          return;
        }
        i := i + 1;
        pc := i;
      } else {
        LetterTaken(c, done, pc, i);
        if i + 1 - pc > MAXLABEL {
          return false;
        }
        i := i + 1;
      }
    }
    ok := WriteRest(c, c[pc..i], sout, before, done);
  }

  method WriteRest(c: Bytes, lab: Bytes, sout: Stream, ghost before: Bytes, ghost done: Bytes) returns (ok: bool)
    requires NameSoFar(c, done, lab, [])
    requires sout.Valid() && sout.Written() == before + done
    modifies sout, sout.buf
    ensures sout.Valid()
    ensures Wrote(ok, before, sout.Written(), Emitted([], c), sout.buf.Length)
  {
    NameDone(c, done, lab);
    ok := WriteLastLabel(lab, sout);
    assert before + (done + Emitted(lab, []).value) == before + done + Emitted(lab, []).value;
  }

  /** Writing one thing after another. */
  lemma {:induction false} WroteBoth(before: Bytes, mid: Bytes, after: Bytes, a: Option<Bytes>, b: Option<Bytes>, capacity: nat,
                                     ok1: bool, ok2: bool)
    requires Wrote(ok1, before, mid, a, capacity)
    requires ok1 ==> Wrote(ok2, mid, after, b, capacity)
    ensures Wrote(ok1 && ok2, before, after, Joint(a, b), capacity)
  {
    if ok1 && ok2 {
      assert before + (a.value + b.value) == (before + a.value) + b.value;
    }
  }

  method WriteTwo(v: U16, w: U16, sout: Stream) returns (ok: bool)
    requires sout.Valid()
    modifies sout, sout.buf
    ensures sout.Valid()
    ensures Wrote(ok, old(sout.Written()), sout.Written(), Some(Two(v) + Two(w)), sout.buf.Length)
  {
    ghost var before := sout.Written();
    ok := sout.Write(Two(v));
    if ok {
      ok := sout.Write(Two(w));
    }
    assert before + (Two(v) + Two(w)) == before + Two(v) + Two(w);
  }

  method SerializeQuestion(q: Question, sout: Stream) returns (ok: bool)
    requires sout.Valid()
    modifies sout, sout.buf
    ensures sout.Valid()
    ensures Wrote(ok, old(sout.Written()), sout.Written(), EncodedQuestion(q), sout.buf.Length)
  {
    ghost var before := sout.Written();
    ok := SerializeName(q.name, sout);
    ghost var named, mid := ok, sout.Written();
    if ok {
      ok := WriteTwo(q.qtype, q.qclass, sout);
    }
    WroteBoth(before, mid, sout.Written(), EncodedName(q.name), Some(Two(q.qtype) + Two(q.qclass)), sout.buf.Length, named, ok);
  }

  lemma {:induction false} TailInPieces(r: Record, w: Bytes)
    ensures w + RecordTail(r)
         == w + (Two(r.qtype) + Two(r.qclass)) + Four(r.ttl) + Two(|r.data| % 0x1_0000) + r.data
  {
  }

  method WriteTail(r: Record, sout: Stream) returns (ok: bool)
    requires sout.Valid()
    modifies sout, sout.buf
    ensures sout.Valid()
    ensures Wrote(ok, old(sout.Written()), sout.Written(), Some(RecordTail(r)), sout.buf.Length)
  {
    TailInPieces(r, sout.Written());
    ok := WriteTwo(r.qtype, r.qclass, sout);
    if ok {
      ok := sout.Write(Four(r.ttl));
    }
    if ok {
      ok := sout.Write(Two(|r.data| % 0x1_0000));
    }
    if ok {
      ok := sout.Write(r.data);
    }
  }

  method SerializeRecord(r: Record, sout: Stream) returns (ok: bool)
    requires sout.Valid()
    modifies sout, sout.buf
    ensures sout.Valid()
    ensures Wrote(ok, old(sout.Written()), sout.Written(), EncodedRecord(r), sout.buf.Length)
  {
    ghost var before := sout.Written();
    ok := SerializeName(r.name, sout);
    ghost var named, mid := ok, sout.Written();
    if ok {
      ok := WriteTail(r, sout);
    }
    WroteBoth(before, mid, sout.Written(), EncodedName(r.name), Some(RecordTail(r)), sout.buf.Length, named, ok);
  }

  /** The items before i are written. */
  ghost predicate ListSoFar<T>(enc: T -> Option<Bytes>, ts: seq<T>, i: nat, done: Bytes) {
    && i <= |ts|
    && var more := EncodedList(enc, ts[i..]);
       EncodedList(enc, ts) == if more.Some? then Some(done + more.value) else None
  }

  lemma {:induction false} ListStarts<T>(enc: T -> Option<Bytes>, ts: seq<T>)
    ensures ListSoFar(enc, ts, 0, [])
  {
    assert ts[0..] == ts;
    var e := EncodedList(enc, ts);
    if e.Some? {
      assert [] + e.value == e.value;
    }
  }

  lemma {:induction false} ListGoesOn<T>(enc: T -> Option<Bytes>, ts: seq<T>, i: nat, done: Bytes, e: Option<Bytes>)
    requires ListSoFar(enc, ts, i, done) && i < |ts| && e == enc(ts[i])
    ensures e.Some? ==> ListSoFar(enc, ts, i + 1, done + e.value)
    ensures EncodedList(enc, ts).Some? ==> e.Some? && |done| + |e.value| <= |EncodedList(enc, ts).value|
  {
    assert ts[i..][0] == ts[i] && ts[i..][1..] == ts[i + 1..];
    var more := EncodedList(enc, ts[i + 1..]);
    if e.Some? && more.Some? {
      assert done + (e.value + more.value) == (done + e.value) + more.value;
    }
  }

  lemma {:induction false} ListEnds<T>(enc: T -> Option<Bytes>, ts: seq<T>, done: Bytes)
    requires ListSoFar(enc, ts, |ts|, done)
    ensures EncodedList(enc, ts) == Some(done)
  {
    assert ts[|ts|..] == [];
    assert done + [] == done;
  }

  lemma {:induction false} WroteOneMore<T>(enc: T -> Option<Bytes>, ts: seq<T>, i: nat, done: Bytes, e: Option<Bytes>,
                                           before: Bytes, mid: Bytes, after: Bytes, ok: bool, capacity: nat)
    requires ListSoFar(enc, ts, i, done) && i < |ts| && e == enc(ts[i])
    requires mid == before + done && Wrote(ok, mid, after, e, capacity)
    ensures ok ==> after == before + (done + e.value) && ListSoFar(enc, ts, i + 1, done + e.value)
    ensures !ok ==> Wrote(false, before, after, EncodedList(enc, ts), capacity)
  {
    ListGoesOn(enc, ts, i, done, e);
  }

  method SerializeQuestions(qs: seq<Question>, sout: Stream) returns (ok: bool)
    requires sout.Valid()
    modifies sout, sout.buf
    ensures sout.Valid()
    ensures Wrote(ok, old(sout.Written()), sout.Written(), EncodedList(EncodedQuestion, qs), sout.buf.Length)
  {
    ghost var before, done := sout.Written(), [];
    ListStarts(EncodedQuestion, qs);
    for i := 0 to |qs|
      invariant sout.Valid() && sout.Written() == before + done
      invariant |before + done| <= sout.buf.Length
      invariant ListSoFar(EncodedQuestion, qs, i, done)
    {
      ghost var mid, e := sout.Written(), EncodedQuestion(qs[i]);
      ok := SerializeQuestion(qs[i], sout);
      WroteOneMore(EncodedQuestion, qs, i, done, e, before, mid, sout.Written(), ok, sout.buf.Length);
      if !ok {
        return;
      }
      done := done + e.value;
    }
    ListEnds(EncodedQuestion, qs, done);
    ok := true;
  }

  method SerializeRecords(rs: seq<Record>, sout: Stream) returns (ok: bool)
    requires sout.Valid()
    modifies sout, sout.buf
    ensures sout.Valid()
    ensures Wrote(ok, old(sout.Written()), sout.Written(), EncodedList(EncodedRecord, rs), sout.buf.Length)
  {
    ghost var before, done := sout.Written(), [];
    ListStarts(EncodedRecord, rs);
    for i := 0 to |rs|
      invariant sout.Valid() && sout.Written() == before + done
      invariant |before + done| <= sout.buf.Length
      invariant ListSoFar(EncodedRecord, rs, i, done)
    {
      ghost var mid, e := sout.Written(), EncodedRecord(rs[i]);
      ok := SerializeRecord(rs[i], sout);
      WroteOneMore(EncodedRecord, rs, i, done, e, before, mid, sout.Written(), ok, sout.buf.Length);
      if !ok {
        return;
      }
      done := done + e.value;
    }
    ListEnds(EncodedRecord, rs, done);
    ok := true;
  }

  method SerializeHead(h: Head, sout: Stream)
    requires sout.Valid() && sout.buf.Length >= 12
    modifies sout, sout.buf
    ensures sout.Valid() && sout.Written() == EncodedHead(h)
  {
    sout.pos := 0;
    var flags: U16 := Packed(h.flags) as int;
    var ok := WriteTwo(h.id, flags, sout);
    ghost var w4 := sout.Written();
    ok := WriteTwo(h.qdcount, h.ancount, sout);
    ghost var w8 := sout.Written();
    ok := WriteTwo(h.nscount, h.arcount, sout);
    HeadInPairs(h, flags, w4, w8, sout.Written());
  }

  lemma {:induction false} HeadInPairs(h: Head, flags: U16, w4: Bytes, w8: Bytes, w12: Bytes)
    requires flags == Packed(h.flags) as int
    requires w4 == [] + (Two(h.id) + Two(flags))
    requires w8 == w4 + (Two(h.qdcount) + Two(h.ancount))
    requires w12 == w8 + (Two(h.nscount) + Two(h.arcount))
    ensures w12 == EncodedHead(h)
  {
  }

  method SerializeResourceRecords(an: seq<Record>, ns: seq<Record>, ar: seq<Record>, sout: Stream) returns (ok: bool)
    requires sout.Valid()
    modifies sout, sout.buf
    ensures sout.Valid()
    ensures Wrote(ok, old(sout.Written()), sout.Written(),
                  Joint(EncodedList(EncodedRecord, an), Joint(EncodedList(EncodedRecord, ns), EncodedList(EncodedRecord, ar))),
                  sout.buf.Length)
  {
    ghost var a, n, r := EncodedList(EncodedRecord, an), EncodedList(EncodedRecord, ns), EncodedList(EncodedRecord, ar);
    ghost var w0, capacity := sout.Written(), sout.buf.Length;
    var ok0 := SerializeRecords(an, sout);
    ghost var w1 := sout.Written();
    var ok1, ok2 := false, false;
    if ok0 {
      ok1 := SerializeRecords(ns, sout);
    }
    ghost var w2 := sout.Written();
    if ok0 && ok1 {
      ok2 := SerializeRecords(ar, sout);
    }
    ghost var w3 := sout.Written();
    if ok0 {
      WroteBoth(w1, w2, w3, n, r, capacity, ok1, ok2);
    }
    WroteBoth(w0, w1, w3, a, Joint(n, r), capacity, ok0, ok1 && ok2);
    ok := ok0 && ok1 && ok2;
  }

  datatype Status = Ok | Error | Unknown

  class DnsPackage {
    var head: Head
    var questions: seq<Question>
    var answers: seq<Record>
    var authority: seq<Record>
    var additional: seq<Record>

    ghost function Contents(): Package
      reads this
    {
      Package(head, questions, answers, authority, additional)
    }

    /** Parses a packet; Unknown means that the answer depends on the byte behind the packet. */
    method Parse(pkg: Bytes) returns (r: Status)
      modifies this
      ensures r.Ok? <==> PackageOf(pkg).Read?
      ensures r.Error? <==> PackageOf(pkg).Failed?
      ensures r.Ok? ==> Contents() == PackageOf(pkg).value
    {
      if |pkg| < 12 {
        return Error;
      }
      head := HeadOf(pkg);
      var qs := ParseQuestions(pkg, 12, head.qdcount);
      if !qs.Read? {
        return if qs.Failed? then Error else Unknown;
      }
      questions := qs.value;
      var an := ParseResourceRecords(pkg, qs.end, head.ancount);
      if !an.Read? {
        return if an.Failed? then Error else Unknown;
      }
      answers := an.value;
      var ns := ParseResourceRecords(pkg, an.end, head.nscount);
      if !ns.Read? {
        return if ns.Failed? then Error else Unknown;
      }
      authority := ns.value;
      var ar := ParseResourceRecords(pkg, ns.end, head.arcount);
      if !ar.Read? {
        return if ar.Failed? then Error else Unknown;
      }
      additional := ar.value;
      r := Ok;
    }

    /** Writes the package; the result is the number of bytes, or -1. */
    method Serialize(buf: array<Byte>) returns (n: int)
      requires buf.Length >= 12
      modifies buf
      ensures n >= 0 <==> Fits([], EncodedPackage(Contents()), buf.Length)
      ensures n >= 0 ==> n <= buf.Length && buf[..n] == EncodedPackage(Contents()).value
      ensures n >= -1
    {
      var ss := new Stream(buf);
      ghost var p := Contents();
      SerializeHead(head, ss);
      ghost var w0 := ss.Written();
      var ok0 := SerializeQuestions(questions, ss);
      ghost var w1 := ss.Written();
      var ok1 := false;
      if ok0 {
        ok1 := SerializeResourceRecords(answers, authority, additional, ss);
      }
      ghost var w2 := ss.Written();
      PackageWrote(p, w0, w1, w2, ok0, ok1, buf.Length);
      if !ok0 || !ok1 {
        return -1;
      }
      n := ss.pos;
    }
  }

  lemma {:induction false} PackageWrote(p: Package, w0: Bytes, w1: Bytes, w2: Bytes, ok0: bool, ok1: bool, capacity: nat)
    requires w0 == EncodedHead(p.head) && |w0| <= capacity
    requires Wrote(ok0, w0, w1, EncodedList(EncodedQuestion, p.questions), capacity)
    requires ok0 ==> Wrote(ok1, w1, w2, Joint(EncodedList(EncodedRecord, p.answers),
                           Joint(EncodedList(EncodedRecord, p.authority), EncodedList(EncodedRecord, p.additional))), capacity)
    ensures Wrote(ok0 && ok1, [], w2, EncodedPackage(p), capacity)
  {
    var rest := Joint(EncodedList(EncodedRecord, p.answers),
                      Joint(EncodedList(EncodedRecord, p.authority), EncodedList(EncodedRecord, p.additional)));
    WroteBoth(w0, w1, w2, EncodedList(EncodedQuestion, p.questions), rest, capacity, ok0, ok1);
    assert [] + w0 == w0;
    WroteBoth([], w0, w2, Some(w0), Joint(EncodedList(EncodedQuestion, p.questions), rest), capacity, true, ok0 && ok1);
  }

  /** A package written into a buffer and parsed again. It is written exactly when every name can be
      and the buffer has room; what is then parsed is the same package exactly when it is well-formed,
      and how much room a well-formed package takes is known before. */
  method WriteAndParse(p: DnsPackage, buf: array<Byte>) returns (n: int, q: DnsPackage, st: Status)
    requires buf.Length >= 12
    modifies buf
    ensures n >= 0 <==> NamesWritable(p.Contents()) && Fits([], EncodedPackage(p.Contents()), buf.Length)
    ensures WellFormed(p.Contents()) ==> (n >= 0 <==> Room(p.Contents()) <= buf.Length)
    ensures n >= 0 ==> (WellFormed(p.Contents()) <==> st.Ok? && q.Contents() == p.Contents())
  {
    ghost var m := p.Contents();
    PackageWritten(m);
    WellFormedMeans(m);
    if WellFormed(m) {
      RoomNeeded(m);
    }
    n := p.Serialize(buf);
    q := new DnsPackage;
    st := Error;
    if n >= 0 {
      MessageComesBack(m, buf[..n]);
      st := q.Parse(buf[..n]);
    }
  }
}
