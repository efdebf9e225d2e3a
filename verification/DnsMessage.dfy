/** Domain-name messages as ec_dns.h writes and reads them (RFC 1035, sections 3.1 and 4.1). */
module DnsMessage {
  import opened Octets

  const DOT: Byte := 46
  const AT: Byte := 64
  const MAXLABEL := 63

  type U16 = v: int | 0 <= v < 0x1_0000
  type I32 = v: int | -0x8000_0000 <= v < 0x8000_0000

  datatype Question = Question(name: Bytes, qtype: U16, qclass: U16)

  datatype Record = Record(name: Bytes, qtype: U16, qclass: U16, ttl: I32, data: Bytes)

  datatype Flags = Flags(qr: bv1, optcode: bv4, aa: bv1, tc: bv1, rd: bv1, ra: bv1, res: bv3, rcode: bv4)

  datatype Head = Head(id: U16, flags: Flags, qdcount: U16, ancount: U16, nscount: U16, arcount: U16)

  datatype Package = Package(
    head: Head,
    questions: seq<Question>,
    answers: seq<Record>,
    authority: seq<Record>,
    additional: seq<Record>)

  /** What reading gives: a value and where it ends, a failure, or an answer that depends on the byte
      after the packet. */
  datatype Reading<+T> = Read(value: T, end: nat) | Failed | Beyond

  /** The number of two bytes, high byte first. */
  function Big(hi: nat, lo: nat): nat {
    hi * 256 + lo
  }

  // ---------------------------------------------------------------- names

  /** The part of a string before its first zero byte. */
  function CStr(s: Bytes): (r: Bytes)
    ensures r <= s && 0 !in r
    ensures 0 !in s ==> r == s
    ensures 0 in s ==> |r| < |s| && s[|r|] == 0
  {
    if s == [] || s[0] == 0 then [] else [s[0]] + CStr(s[1..])
  }

  function Label(lab: Bytes): Bytes
    requires |lab| <= MAXLABEL
  {
    [|lab|] + lab
  }

  /** The labels of s, the first of which starts with `lab`; dots and at signs separate them. */
  function Emitted(lab: Bytes, s: Bytes): Option<Bytes>
    requires |lab| <= MAXLABEL
    decreases |s|
  {
    if s == [] then Some((if lab == [] then [] else Label(lab)) + [0])
    else if s[0] == DOT || s[0] == AT then
      var more := Emitted([], s[1..]);
      if more.None? then None else Some(Label(lab) + more.value)
    else if |lab| == MAXLABEL then None
    else Emitted(lab + [s[0]], s[1..])
  }

  function EncodedName(s: Bytes): Option<Bytes> {
    var c := CStr(s);
    if c == [] then None else Emitted([], c)
  }

  /** Labels at a place a pointer leads to; another pointer ends them as a zero does. */
  function Pointed(pkg: Bytes, at: nat, name: Bytes, started: bool): Reading<Bytes>
    requires at <= |pkg|
    decreases |pkg| - at
  {
    if at == |pkg| then Beyond
    else
      var n := pkg[at];
      if n == 0 || n >= 0x40 then Read(name, at)
      else if n + at >= |pkg| then Failed
      else Pointed(pkg, at + n + 1, Joined(name, started) + pkg[at + 1..at + 1 + n], true)
  }

  function Joined(name: Bytes, started: bool): Bytes {
    if started then name + [DOT] else name
  }

  function NameFrom(pkg: Bytes, at: nat, name: Bytes, started: bool): (r: Reading<Bytes>)
    requires at < |pkg|
    ensures r.Read? ==> r.end <= |pkg|
    decreases |pkg| - at
  {
    var n := pkg[at];
    if n == 0 then Read(name, at + 1)
    else if n < 0x40 then
      if n >= |pkg| - at || at + n + 1 >= |pkg| then Failed
      else NameFrom(pkg, at + n + 1, Joined(name, started) + pkg[at + 1..at + 1 + n], true)
    else FollowedPointer(pkg, at, Joined(name, started))
  }

  function FollowedPointer(pkg: Bytes, at: nat, name: Bytes): (r: Reading<Bytes>)
    requires at < |pkg|
    ensures r.Read? ==> r.end <= |pkg|
  {
    if at + 2 >= |pkg| then Failed
    else
      var target := Big(pkg[at] % 0x40, pkg[at + 1]);
      if target >= |pkg| then Failed
      else
        var pointed := Pointed(pkg, target, name, false);
        if pointed.Read? then Read(pointed.value, at + 2) else pointed
  }

  function NameAt(pkg: Bytes, at: nat): (r: Reading<Bytes>)
    ensures r.Read? ==> r.end <= |pkg|
  {
    if at >= |pkg| then Failed else NameFrom(pkg, at, [], false)
  }

  // ---------------------------------------------------------------- which names come back

  predicate LabelsOk(lab: Bytes, s: Bytes)
    decreases |s|
  {
    if s == [] then lab != []
    else if s[0] == DOT then lab != [] && LabelsOk([], s[1..])
    else if s[0] == AT then false
    else LabelsOk(lab + [s[0]], s[1..])
  }

  /** Non-empty labels with single dots between them, no at sign and no zero byte. */
  predicate NameOk(s: Bytes) {
    0 !in s && LabelsOk([], s)
  }

  /** The bytes `part` are in the packet at `at`. */
  ghost predicate Holds(pkg: Bytes, at: nat, part: Bytes) {
    at + |part| <= |pkg| && pkg[at..at + |part|] == part
  }

  lemma {:induction false} HoldsParts(pkg: Bytes, at: nat, a: Bytes, b: Bytes)
    ensures Holds(pkg, at, a + b) <==> Holds(pkg, at, a) && Holds(pkg, at + |a|, b)
  {
    if Holds(pkg, at, a + b) {
      assert pkg[at..at + |a|] == pkg[at..at + |a + b|][..|a|] == a;
      assert pkg[at + |a|..at + |a| + |b|] == pkg[at..at + |a + b|][|a|..] == b;
    }
    if Holds(pkg, at, a) && Holds(pkg, at + |a|, b) {
      assert pkg[at..at + |a + b|] == pkg[at..at + |a|] + pkg[at + |a|..at + |a| + |b|];
    }
  }

  lemma {:induction false} ReadLabel(pkg: Bytes, at: nat, lab: Bytes, name: Bytes, started: bool, rest: Bytes)
    requires 0 < |lab| <= MAXLABEL && rest != []
    requires Holds(pkg, at, Label(lab) + rest)
    ensures Holds(pkg, at + |lab| + 1, rest)
    ensures at + |lab| + 1 < |pkg|
    ensures NameFrom(pkg, at, name, started) == NameFrom(pkg, at + |lab| + 1, Joined(name, started) + lab, true)
  {
    HoldsParts(pkg, at, Label(lab), rest);
    HoldsParts(pkg, at, [|lab|], lab);
    assert pkg[at..at + 1][0] == pkg[at];
  }

  /** Reading only adds to the name; behind a label, what is added starts with a dot. */
  lemma {:induction false} PointedExtends(pkg: Bytes, at: nat, name: Bytes, started: bool)
    requires at <= |pkg|
    ensures var r := Pointed(pkg, at, name, started); r.Read? ==> name <= r.value
    decreases |pkg| - at
  {
    if at == |pkg| {
    } else {
      var n := pkg[at];
      if n == 0 || n >= 0x40 || n + at >= |pkg| {
      } else {
        PointedExtends(pkg, at + n + 1, Joined(name, started) + pkg[at + 1..at + 1 + n], true);
      }
    }
  }

  lemma {:induction false} ReadingExtends(pkg: Bytes, at: nat, name: Bytes, started: bool)
    requires at < |pkg|
    ensures var r := NameFrom(pkg, at, name, started);
            r.Read? ==> r.value == name || Joined(name, started) <= r.value
    decreases |pkg| - at
  {
    var n := pkg[at];
    if n == 0 {
    } else if n < 0x40 {
      if n >= |pkg| - at || at + n + 1 >= |pkg| {
      } else {
        ReadingExtends(pkg, at + n + 1, Joined(name, started) + pkg[at + 1..at + 1 + n], true);
      }
    } else if at + 2 < |pkg| {
      var target := Big(pkg[at] % 0x40, pkg[at + 1]);
      if target < |pkg| {
        PointedExtends(pkg, target, Joined(name, started), false);
      }
    }
  }

  lemma {:induction false} EmittedNotEmpty(lab: Bytes, s: Bytes)
    requires |lab| <= MAXLABEL && Emitted(lab, s).Some?
    ensures Emitted(lab, s).value != []
    decreases |s|
  {
    if s == [] {
    } else if s[0] == DOT || s[0] == AT {
    } else {
      EmittedNotEmpty(lab + [s[0]], s[1..]);
    }
  }

  /** What is read at `at` is the name exactly when the labels are in order, and then ends behind
      `out`; otherwise it does not even start with the name. */
  ghost predicate ComesBack(r: Reading<Bytes>, whole: Bytes, end: nat, ok: bool) {
    if ok then r == Read(whole, end) else r.Read? ==> !(whole <= r.value)
  }

  lemma {:induction false} LastLabel(lab: Bytes, pkg: Bytes, at: nat, name: Bytes, started: bool)
    requires |lab| <= MAXLABEL && (started || lab != [])
    requires Holds(pkg, at, Emitted(lab, []).value)
    ensures at < |pkg|
    ensures ComesBack(NameFrom(pkg, at, name, started), Joined(name, started) + lab,
                      at + |Emitted(lab, []).value|, lab != [])
  {
    if lab == [] {
      assert pkg[at..at + 1][0] == pkg[at];
    } else {
      ReadLabel(pkg, at, lab, name, started, [0]);
      assert pkg[at + |lab| + 1..at + |lab| + 2][0] == pkg[at + |lab| + 1];
    }
  }

  lemma {:induction false} EmptyLabel(pkg: Bytes, at: nat, more: Bytes, name: Bytes, started: bool, whole: Bytes)
    requires Holds(pkg, at, Label([]) + more)
    requires |whole| > |name|
    ensures at < |pkg|
    ensures ComesBack(NameFrom(pkg, at, name, started), whole, 0, false)
  {
    HoldsParts(pkg, at, Label([]), more);
    assert pkg[at..at + 1][0] == pkg[at];
  }

  lemma {:induction false} AtSign(pkg: Bytes, at: nat, front: Bytes, whole: Bytes)
    requires at < |pkg|
    requires front <= whole && |front| < |whole| && whole[|front|] == AT
    ensures ComesBack(NameFrom(pkg, at, front, true), whole, 0, false)
  {
    ReadingExtends(pkg, at, front, true);
  }

  lemma {:induction false} WholeByLetter(front: Bytes, lab: Bytes, s: Bytes)
    requires s != []
    ensures front + (lab + [s[0]]) + s[1..] == front + lab + s
  {
    assert [s[0]] + s[1..] == s;
  }

  lemma {:induction false} WholeByDot(front: Bytes, s: Bytes)
    requires s != [] && s[0] == DOT
    ensures Joined(front, true) + [] + s[1..] == front + s
  {
    assert [s[0]] + s[1..] == s;
  }

  /** A label that is not empty has been collected and is followed by a separator. */
  lemma {:induction false} AfterLabel(lab: Bytes, s: Bytes, pkg: Bytes, at: nat, name: Bytes, started: bool)
    requires 0 < |lab| <= MAXLABEL && s != [] && (s[0] == DOT || s[0] == AT) && Emitted(lab, s).Some?
    requires Holds(pkg, at, Emitted(lab, s).value)
    ensures at < |pkg|
    ensures ComesBack(NameFrom(pkg, at, name, started), Joined(name, started) + lab + s,
                      at + |Emitted(lab, s).value|, LabelsOk(lab, s))
    decreases |s|, 0
  {
    var more := Emitted([], s[1..]).value;
    var front := Joined(name, started) + lab;
    EmittedNotEmpty([], s[1..]);
    ReadLabel(pkg, at, lab, name, started, more);
    if s[0] == DOT {
      LabelsComeBack([], s[1..], pkg, at + |lab| + 1, front, true);
      WholeByDot(front, s);
    } else {
      AtSign(pkg, at + |lab| + 1, front, front + s);
    }
  }

  /** Labels are read back exactly when none is empty and dots separate them. */
  lemma {:induction false} LabelsComeBack(lab: Bytes, s: Bytes, pkg: Bytes, at: nat, name: Bytes, started: bool)
    requires |lab| <= MAXLABEL && Emitted(lab, s).Some?
    requires Holds(pkg, at, Emitted(lab, s).value)
    requires started || lab + s != []
    ensures at < |pkg|
    ensures ComesBack(NameFrom(pkg, at, name, started), Joined(name, started) + lab + s,
                      at + |Emitted(lab, s).value|, LabelsOk(lab, s))
    decreases |s|, 1
  {
    var whole := Joined(name, started) + lab + s;
    if s == [] {
      LastLabel(lab, pkg, at, name, started);
      assert whole == Joined(name, started) + lab;
    } else if s[0] == DOT || s[0] == AT {
      if lab == [] {
        var more := Emitted([], s[1..]).value;
        EmptyLabel(pkg, at, more, name, started, whole);
      } else {
        AfterLabel(lab, s, pkg, at, name, started);
      }
    } else {
      LabelsComeBack(lab + [s[0]], s[1..], pkg, at, name, started);
      WholeByLetter(Joined(name, started), lab, s);
    }
  }

  /** A name is read back exactly when it is a sequence of non-empty labels. */
  lemma {:induction false} NameComesBack(s: Bytes, pkg: Bytes, at: nat)
    requires EncodedName(s).Some? && Holds(pkg, at, EncodedName(s).value)
    ensures NameOk(s) ==> NameAt(pkg, at) == Read(s, at + |EncodedName(s).value|)
    ensures !NameOk(s) && NameAt(pkg, at).Read? ==> NameAt(pkg, at).value != s
  {
    var c := CStr(s);
    LabelsComeBack([], c, pkg, at, [], false);
    assert Joined([], false) + [] + c == c;
  }

  // ---------------------------------------------------------------- compressed names

  /** A pointer to the labels of a name stands for the name. */
  lemma {:induction false} PointedLabels(lab: Bytes, s: Bytes, pkg: Bytes, at: nat, name: Bytes, started: bool)
    requires |lab| <= MAXLABEL && Emitted(lab, s).Some? && LabelsOk(lab, s)
    requires Holds(pkg, at, Emitted(lab, s).value)
    ensures var r := Pointed(pkg, at, name, started); r.Read? && r.value == Joined(name, started) + lab + s
    decreases |s|
  {
    var whole := Joined(name, started) + lab + s;
    if s == [] {
      PointedLabel(pkg, at, lab, name, started, [0]);
      assert pkg[at + |lab| + 1..at + |lab| + 2][0] == pkg[at + |lab| + 1];
      assert whole == Joined(name, started) + lab;
    } else if s[0] == DOT {
      var more := Emitted([], s[1..]).value;
      EmittedNotEmpty([], s[1..]);
      PointedLabel(pkg, at, lab, name, started, more);
      var front := Joined(name, started) + lab;
      PointedLabels([], s[1..], pkg, at + |lab| + 1, front, true);
      WholeByDot(front, s);
    } else {
      PointedLabels(lab + [s[0]], s[1..], pkg, at, name, started);
      WholeByLetter(Joined(name, started), lab, s);
    }
  }

  lemma {:induction false} PointedLabel(pkg: Bytes, at: nat, lab: Bytes, name: Bytes, started: bool, rest: Bytes)
    requires 0 < |lab| <= MAXLABEL && rest != []
    requires Holds(pkg, at, Label(lab) + rest)
    ensures Holds(pkg, at + |lab| + 1, rest)
    ensures Pointed(pkg, at, name, started) == Pointed(pkg, at + |lab| + 1, Joined(name, started) + lab, true)
  {
    HoldsParts(pkg, at, Label(lab), rest);
    HoldsParts(pkg, at, [|lab|], lab);
    assert pkg[at..at + 1][0] == pkg[at];
  }

  lemma {:induction false} PointerBytes(target: nat)
    requires target < 0x4000
    ensures 0xc0 + target / 256 < 256
    ensures Big((0xc0 + target / 256) % 0x40, target % 256) == target
  {
    assert (0xc0 + target / 256) % 0x40 == target / 256;
  }

  lemma {:induction false} AtPointer(pkg: Bytes, at: nat, hi: Byte, lo: Byte, target: nat)
    requires Holds(pkg, at, [hi, lo]) && hi >= 0xc0 && Big(hi % 0x40, lo) == target < |pkg|
    ensures NameAt(pkg, at) == FollowedPointer(pkg, at, [])
    ensures at + 2 < |pkg| && Pointed(pkg, target, [], false).Read?
        ==> NameAt(pkg, at) == Read(Pointed(pkg, target, [], false).value, at + 2)
    ensures at + 2 >= |pkg| ==> NameAt(pkg, at).Failed?
  {
    assert pkg[at] == pkg[at..at + 2][0];
    assert pkg[at + 1] == pkg[at..at + 2][1];
  }

  /** Two bytes that point to the labels of a name are read as the labels themselves, wherever they
      stand but at the very end of the packet. */
  lemma {:induction false} PointerComesBack(s: Bytes, pkg: Bytes, at: nat, target: nat, hi: Byte, lo: Byte)
    requires NameOk(s) && EncodedName(s).Some? && Holds(pkg, target, EncodedName(s).value)
    requires target < 0x4000 && hi == 0xc0 + target / 256 && lo == target % 256
    requires Holds(pkg, at, [hi, lo])
    ensures NameAt(pkg, at) == if at + 2 < |pkg| then Read(s, at + 2) else Failed
  {
    PointerBytes(target);
    EmittedNotEmpty([], CStr(s));
    AtPointer(pkg, at, hi, lo, target);
    PointedLabels([], s, pkg, target, [], false);
    assert Joined([], false) + [] + s == s;
  }

  // ---------------------------------------------------------------- questions and records

  function Two(v: U16): Bytes {
    [v / 256, v % 256]
  }

  function U16At(pkg: Bytes, at: nat): U16
    requires at + 2 <= |pkg|
  {
    Big(pkg[at], pkg[at + 1])
  }

  /** A signed number as its two's complement. */
  function Four(v: I32): Bytes {
    var u := if v < 0 then v + 0x1_0000_0000 else v;
    [u / 0x100_0000, u / 0x1_0000 % 256, u / 256 % 256, u % 256]
  }

  function I32At(pkg: Bytes, at: nat): I32
    requires at + 4 <= |pkg|
  {
    var u := Big(Big(Big(pkg[at], pkg[at + 1]), pkg[at + 2]), pkg[at + 3]);
    if u >= 0x8000_0000 then u - 0x1_0000_0000 else u
  }

  lemma {:induction false} TwoComesBack(v: U16, pkg: Bytes, at: nat)
    requires Holds(pkg, at, Two(v))
    ensures at + 2 <= |pkg| && U16At(pkg, at) == v
  {
    assert pkg[at] == pkg[at..at + 2][0];
    assert pkg[at + 1] == pkg[at..at + 2][1];
  }

  lemma {:induction false} FourComesBack(v: I32, pkg: Bytes, at: nat)
    requires Holds(pkg, at, Four(v))
    ensures at + 4 <= |pkg| && I32At(pkg, at) == v
  {
    assert pkg[at] == pkg[at..at + 4][0];
    assert pkg[at + 1] == pkg[at..at + 4][1];
    assert pkg[at + 2] == pkg[at..at + 4][2];
    assert pkg[at + 3] == pkg[at..at + 4][3];
  }

  function EncodedQuestion(q: Question): Option<Bytes> {
    var name := EncodedName(q.name);
    if name.None? then None else Some(name.value + (Two(q.qtype) + Two(q.qclass)))
  }

  function QuestionAt(pkg: Bytes, at: nat): (r: Reading<Question>)
    ensures r.Read? ==> r.end <= |pkg|
  {
    match NameAt(pkg, at)
    case Failed => Failed
    case Beyond => Beyond
    case Read(name, end) =>
      if |pkg| - end < 4 then Failed
      else Read(Question(name, U16At(pkg, end), U16At(pkg, end + 2)), end + 4)
  }

  predicate QuestionOk(q: Question) {
    NameOk(q.name)
  }

  /** The size of the data goes into sixteen bits. */
  function RecordTail(r: Record): Bytes {
    Two(r.qtype) + (Two(r.qclass) + (Four(r.ttl) + (Two(|r.data| % 0x1_0000) + r.data)))
  }

  function EncodedRecord(r: Record): Option<Bytes> {
    var name := EncodedName(r.name);
    if name.None? then None else Some(name.value + RecordTail(r))
  }

  function RecordFrom(pkg: Bytes, end: nat, name: Bytes): (r: Reading<Record>)
    requires end <= |pkg|
    ensures r.Read? ==> r.end <= |pkg|
  {
    if |pkg| - end < 10 then Failed
    else
      var size := U16At(pkg, end + 8);
      if |pkg| - (end + 10) < size then Failed
      else
        Read(Record(name, U16At(pkg, end), U16At(pkg, end + 2), I32At(pkg, end + 4), pkg[end + 10..end + 10 + size]),
             end + 10 + size)
  }

  function RecordAt(pkg: Bytes, at: nat): (r: Reading<Record>)
    ensures r.Read? ==> r.end <= |pkg|
  {
    match NameAt(pkg, at)
    case Failed => Failed
    case Beyond => Beyond
    case Read(name, end) => RecordFrom(pkg, end, name)
  }

  predicate RecordOk(r: Record) {
    NameOk(r.name) && |r.data| < 0x1_0000
  }

  lemma {:induction false} QuestionComesBack(q: Question, pkg: Bytes, at: nat)
    requires EncodedQuestion(q).Some? && Holds(pkg, at, EncodedQuestion(q).value)
    ensures if QuestionOk(q) then QuestionAt(pkg, at) == Read(q, at + |EncodedQuestion(q).value|)
            else QuestionAt(pkg, at).Read? ==> QuestionAt(pkg, at).value != q
  {
    var name := EncodedName(q.name).value;
    HoldsParts(pkg, at, name, Two(q.qtype) + Two(q.qclass));
    NameComesBack(q.name, pkg, at);
    var end := at + |name|;
    HoldsParts(pkg, end, Two(q.qtype), Two(q.qclass));
    TwoComesBack(q.qtype, pkg, end);
    TwoComesBack(q.qclass, pkg, end + 2);
  }

  /** The fixed fields behind a name, and where the data begins. */
  lemma {:induction false} TailComesBack(r: Record, pkg: Bytes, end: nat)
    requires Holds(pkg, end, RecordTail(r))
    ensures end + 10 + |r.data| <= |pkg|
    ensures U16At(pkg, end) == r.qtype && U16At(pkg, end + 2) == r.qclass && I32At(pkg, end + 4) == r.ttl
    ensures U16At(pkg, end + 8) == |r.data| % 0x1_0000
    ensures pkg[end + 10..end + 10 + |r.data|] == r.data
  {
    var size := |r.data| % 0x1_0000;
    HoldsParts(pkg, end, Two(r.qtype), Two(r.qclass) + (Four(r.ttl) + (Two(size) + r.data)));
    HoldsParts(pkg, end + 2, Two(r.qclass), Four(r.ttl) + (Two(size) + r.data));
    HoldsParts(pkg, end + 4, Four(r.ttl), Two(size) + r.data);
    HoldsParts(pkg, end + 8, Two(size), r.data);
    TwoComesBack(r.qtype, pkg, end);
    TwoComesBack(r.qclass, pkg, end + 2);
    FourComesBack(r.ttl, pkg, end + 4);
    TwoComesBack(size, pkg, end + 8);
  }

  /** A size is kept in sixteen bits exactly when it fits there. */
  lemma {:induction false} SizeKept(n: nat)
    ensures if n < 0x1_0000 then n % 0x1_0000 == n else n % 0x1_0000 < n
  {
  }

  lemma {:induction false} FieldsRead(pkg: Bytes, end: nat, name: Bytes, qtype: U16, qclass: U16, ttl: I32, size: nat)
    requires end + 10 + size <= |pkg|
    requires U16At(pkg, end) == qtype && U16At(pkg, end + 2) == qclass && I32At(pkg, end + 4) == ttl
    requires U16At(pkg, end + 8) == size
    ensures RecordFrom(pkg, end, name)
         == Read(Record(name, qtype, qclass, ttl, pkg[end + 10..end + 10 + size]), end + 10 + size)
  {
  }

  lemma {:induction false} RecordBehind(r: Record, pkg: Bytes, at: nat, name: Bytes, end: nat)
    requires NameAt(pkg, at) == Read(name, end) && Holds(pkg, end, RecordTail(r))
    ensures RecordAt(pkg, at).Read?
    ensures |r.data| < 0x1_0000 ==> RecordAt(pkg, at) == Read(r.(name := name), end + 10 + |r.data|)
    ensures |r.data| >= 0x1_0000 ==> |RecordAt(pkg, at).value.data| < |r.data|
    ensures RecordAt(pkg, at).value.name == name
  {
    TailComesBack(r, pkg, end);
    var size := |r.data| % 0x1_0000;
    SizeKept(|r.data|);
    FieldsRead(pkg, end, name, r.qtype, r.qclass, r.ttl, size);
    if |r.data| < 0x1_0000 {
      assert pkg[end + 10..end + 10 + size] == r.data;
    }
  }

  lemma {:induction false} RecordComesBack(r: Record, pkg: Bytes, at: nat)
    requires EncodedRecord(r).Some? && Holds(pkg, at, EncodedRecord(r).value)
    ensures if RecordOk(r) then RecordAt(pkg, at) == Read(r, at + |EncodedRecord(r).value|)
            else RecordAt(pkg, at).Read? ==> RecordAt(pkg, at).value != r
  {
    var name := EncodedName(r.name).value;
    HoldsParts(pkg, at, name, RecordTail(r));
    NameComesBack(r.name, pkg, at);
    if NameOk(r.name) {
      RecordBehind(r, pkg, at, r.name, at + |name|);
      assert r.(name := r.name) == r;
    }
  }

  // ---------------------------------------------------------------- lists of them

  function EncodedList<T>(enc: T -> Option<Bytes>, ts: seq<T>): Option<Bytes> {
    if ts == [] then Some([])
    else
      var first := enc(ts[0]);
      var more := EncodedList(enc, ts[1..]);
      if first.None? || more.None? then None else Some(first.value + more.value)
  }

  function ListAt<T>(read: (Bytes, nat) -> Reading<T>, pkg: Bytes, at: nat, n: nat): Reading<seq<T>>
    decreases n
  {
    if n == 0 then Read([], at)
    else
      match read(pkg, at)
      case Failed => Failed
      case Beyond => Beyond
      case Read(first, end) =>
        match ListAt(read, pkg, end, n - 1)
        case Failed => Failed
        case Beyond => Beyond
        case Read(more, last) => Read([first] + more, last)
  }

  ghost predicate ItemComesBack<T>(enc: T -> Option<Bytes>, read: (Bytes, nat) -> Reading<T>, ok: T -> bool,
                                   t: T, pkg: Bytes, at: nat) {
    var e := enc(t);
    e.Some? && Holds(pkg, at, e.value) ==>
      if ok(t) then read(pkg, at) == Read(t, at + |e.value|)
      else read(pkg, at).Read? ==> read(pkg, at).value != t
  }

  ghost predicate Codec<T(!new)>(enc: T -> Option<Bytes>, read: (Bytes, nat) -> Reading<T>, ok: T -> bool) {
    forall t, pkg, at :: ItemComesBack(enc, read, ok, t, pkg, at)
  }

  predicate AllOk<T>(ok: T -> bool, ts: seq<T>) {
    ts == [] || (ok(ts[0]) && AllOk(ok, ts[1..]))
  }

  lemma {:induction false} ListLength<T>(read: (Bytes, nat) -> Reading<T>, pkg: Bytes, at: nat, n: nat)
    ensures var r := ListAt(read, pkg, at, n); r.Read? ==> |r.value| == n
    decreases n
  {
    if n > 0 {
      match read(pkg, at)
      case Failed =>
      case Beyond =>
      case Read(first, end) => ListLength(read, pkg, end, n - 1);
    }
  }

  ghost predicate ListBack<T>(read: (Bytes, nat) -> Reading<T>, ok: T -> bool, ts: seq<T>,
                              pkg: Bytes, at: nat, n: nat, end: nat) {
    var r := ListAt(read, pkg, at, n);
    if ListOk(ok, ts, n) then r == Read(ts, end) else r.Read? ==> r.value != ts
  }

  /** A list is read back exactly when the count is its length and every item comes back. */
  lemma {:induction false} ListComesBack<T(!new)>(enc: T -> Option<Bytes>, read: (Bytes, nat) -> Reading<T>, ok: T -> bool,
                                ts: seq<T>, pkg: Bytes, at: nat, n: nat)
    requires Codec(enc, read, ok)
    requires EncodedList(enc, ts).Some? && Holds(pkg, at, EncodedList(enc, ts).value)
    ensures ListBack(read, ok, ts, pkg, at, n, at + |EncodedList(enc, ts).value|)
    decreases |ts|
  {
    ListLength(read, pkg, at, n);
    if ts != [] && n > 0 {
      var first, more := enc(ts[0]).value, EncodedList(enc, ts[1..]).value;
      HoldsParts(pkg, at, first, more);
      assert ItemComesBack(enc, read, ok, ts[0], pkg, at);
      if ok(ts[0]) {
        ListComesBack(enc, read, ok, ts[1..], pkg, at + |first|, n - 1);
        assert ts == [ts[0]] + ts[1..];
      }
    }
  }

  // ---------------------------------------------------------------- the head

  function Packed(f: Flags): bv16 {
    ((f.qr as bv16) << 15) | ((f.optcode as bv16) << 11) | ((f.aa as bv16) << 10) | ((f.tc as bv16) << 9)
    | ((f.rd as bv16) << 8) | ((f.ra as bv16) << 7) | ((f.res as bv16) << 4) | (f.rcode as bv16)
  }

  function Unpacked(u: bv16): Flags {
    Flags((u >> 15) as bv1, ((u >> 11) & 0x0f) as bv4, ((u >> 10) & 1) as bv1, ((u >> 9) & 1) as bv1,
          ((u >> 8) & 1) as bv1, ((u >> 7) & 1) as bv1, ((u >> 4) & 7) as bv3, (u & 0x0f) as bv4)
  }

  lemma {:induction false} UnpackUndoesPack(f: Flags)
    ensures Unpacked(Packed(f)) == f
  {
  }

  function EncodedHead(h: Head): Bytes {
    Two(h.id) + (Two(Packed(h.flags) as int)
    + (Two(h.qdcount) + (Two(h.ancount) + (Two(h.nscount) + Two(h.arcount)))))
  }

  function HeadOf(pkg: Bytes): Head
    requires |pkg| >= 12
  {
    Head(U16At(pkg, 0), Unpacked(U16At(pkg, 2) as bv16), U16At(pkg, 4), U16At(pkg, 6), U16At(pkg, 8), U16At(pkg, 10))
  }

  lemma {:induction false} HeadComesBack(h: Head, pkg: Bytes)
    requires Holds(pkg, 0, EncodedHead(h))
    ensures |pkg| >= 12 && HeadOf(pkg) == h
  {
    var flags: U16 := Packed(h.flags) as int;
    HoldsParts(pkg, 0, Two(h.id), Two(flags) + (Two(h.qdcount) + (Two(h.ancount) + (Two(h.nscount) + Two(h.arcount)))));
    HoldsParts(pkg, 2, Two(flags), Two(h.qdcount) + (Two(h.ancount) + (Two(h.nscount) + Two(h.arcount))));
    HoldsParts(pkg, 4, Two(h.qdcount), Two(h.ancount) + (Two(h.nscount) + Two(h.arcount)));
    HoldsParts(pkg, 6, Two(h.ancount), Two(h.nscount) + Two(h.arcount));
    HoldsParts(pkg, 8, Two(h.nscount), Two(h.arcount));
    TwoComesBack(h.id, pkg, 0);
    TwoComesBack(flags, pkg, 2);
    TwoComesBack(h.qdcount, pkg, 4);
    TwoComesBack(h.ancount, pkg, 6);
    TwoComesBack(h.nscount, pkg, 8);
    TwoComesBack(h.arcount, pkg, 10);
    UnpackUndoesPack(h.flags);
  }

  // ---------------------------------------------------------------- packages

  function Joint(a: Option<Bytes>, b: Option<Bytes>): Option<Bytes> {
    if a.None? || b.None? then None else Some(a.value + b.value)
  }

  function EncodedPackage(p: Package): Option<Bytes> {
    Joint(Some(EncodedHead(p.head)),
          Joint(EncodedList(EncodedQuestion, p.questions),
                Joint(EncodedList(EncodedRecord, p.answers),
                      Joint(EncodedList(EncodedRecord, p.authority), EncodedList(EncodedRecord, p.additional)))))
  }

  function AdditionalFrom(pkg: Bytes, at: nat, h: Head, qs: seq<Question>, an: seq<Record>, ns: seq<Record>): Reading<Package> {
    match ListAt(RecordAt, pkg, at, h.arcount)
    case Failed => Failed
    case Beyond => Beyond
    case Read(ar, end) => Read(Package(h, qs, an, ns, ar), end)
  }

  function AuthorityFrom(pkg: Bytes, at: nat, h: Head, qs: seq<Question>, an: seq<Record>): Reading<Package> {
    match ListAt(RecordAt, pkg, at, h.nscount)
    case Failed => Failed
    case Beyond => Beyond
    case Read(ns, end) => AdditionalFrom(pkg, end, h, qs, an, ns)
  }

  function AnswersFrom(pkg: Bytes, at: nat, h: Head, qs: seq<Question>): Reading<Package> {
    match ListAt(RecordAt, pkg, at, h.ancount)
    case Failed => Failed
    case Beyond => Beyond
    case Read(an, end) => AuthorityFrom(pkg, end, h, qs, an)
  }

  function QuestionsFrom(pkg: Bytes, at: nat, h: Head): Reading<Package> {
    match ListAt(QuestionAt, pkg, at, h.qdcount)
    case Failed => Failed
    case Beyond => Beyond
    case Read(qs, end) => AnswersFrom(pkg, end, h, qs)
  }

  function PackageOf(pkg: Bytes): Reading<Package> {
    if |pkg| < 12 then Failed else QuestionsFrom(pkg, 12, HeadOf(pkg))
  }

  predicate ListOk<T>(ok: T -> bool, ts: seq<T>, count: nat) {
    count == |ts| && AllOk(ok, ts)
  }

  predicate PackageOk(p: Package) {
    && ListOk(QuestionOk, p.questions, p.head.qdcount)
    && ListOk(RecordOk, p.answers, p.head.ancount)
    && ListOk(RecordOk, p.authority, p.head.nscount)
    && ListOk(RecordOk, p.additional, p.head.arcount)
  }

  lemma {:induction false} QuestionCodec()
    ensures Codec(EncodedQuestion, QuestionAt, QuestionOk)
  {
    forall q, pkg, at ensures ItemComesBack(EncodedQuestion, QuestionAt, QuestionOk, q, pkg, at) {
      if EncodedQuestion(q).Some? && Holds(pkg, at, EncodedQuestion(q).value) {
        QuestionComesBack(q, pkg, at);
      }
    }
  }

  lemma {:induction false} RecordCodec()
    ensures Codec(EncodedRecord, RecordAt, RecordOk)
  {
    forall r, pkg, at ensures ItemComesBack(EncodedRecord, RecordAt, RecordOk, r, pkg, at) {
      if EncodedRecord(r).Some? && Holds(pkg, at, EncodedRecord(r).value) {
        RecordComesBack(r, pkg, at);
      }
    }
  }

  lemma {:induction false} QuestionsComeBack(qs: seq<Question>, pkg: Bytes, at: nat, n: nat, bytes: Bytes)
    requires EncodedList(EncodedQuestion, qs) == Some(bytes) && Holds(pkg, at, bytes)
    ensures ListBack(QuestionAt, QuestionOk, qs, pkg, at, n, at + |bytes|)
  {
    QuestionCodec();
    ListComesBack(EncodedQuestion, QuestionAt, QuestionOk, qs, pkg, at, n);
  }

  lemma {:induction false} RecordsComeBack(rs: seq<Record>, pkg: Bytes, at: nat, n: nat, bytes: Bytes)
    requires EncodedList(EncodedRecord, rs) == Some(bytes) && Holds(pkg, at, bytes)
    ensures ListBack(RecordAt, RecordOk, rs, pkg, at, n, at + |bytes|)
  {
    RecordCodec();
    ListComesBack(EncodedRecord, RecordAt, RecordOk, rs, pkg, at, n);
  }

  /** The rest of a package, read at `at` into what has been read so far. */
  ghost predicate RestBack(r: Reading<Package>, p: Package, ok: bool, end: nat) {
    if ok then r == Read(p, end) else r.Read? ==> r.value != p
  }

  lemma {:induction false} AdditionalBack(p: Package, pkg: Bytes, at: nat, d: Bytes)
    requires EncodedList(EncodedRecord, p.additional) == Some(d) && Holds(pkg, at, d)
    ensures RestBack(AdditionalFrom(pkg, at, p.head, p.questions, p.answers, p.authority), p,
                     ListOk(RecordOk, p.additional, p.head.arcount), at + |d|)
  {
    RecordsComeBack(p.additional, pkg, at, p.head.arcount, d);
  }

  lemma {:induction false} AuthorityStep(pkg: Bytes, at: nat, h: Head, qs: seq<Question>, an: seq<Record>)
    ensures var r := ListAt(RecordAt, pkg, at, h.nscount);
            var x := AuthorityFrom(pkg, at, h, qs, an);
            && (r.Read? ==> x == AdditionalFrom(pkg, r.end, h, qs, an, r.value))
            && (x.Read? ==> r.Read? && x.value.answers == an && x.value.authority == r.value)
            && (x.Read? ==> x.value.head == h && x.value.questions == qs)
  {
  }

  predicate LastTwoOk(p: Package) {
    ListOk(RecordOk, p.authority, p.head.nscount) && ListOk(RecordOk, p.additional, p.head.arcount)
  }

  lemma {:induction false} AuthorityJoins(p: Package, pkg: Bytes, at: nat, end: nat, last: nat)
    requires ListBack(RecordAt, RecordOk, p.authority, pkg, at, p.head.nscount, end)
    requires RestBack(AdditionalFrom(pkg, end, p.head, p.questions, p.answers, p.authority), p,
                      ListOk(RecordOk, p.additional, p.head.arcount), last)
    ensures RestBack(AuthorityFrom(pkg, at, p.head, p.questions, p.answers), p, LastTwoOk(p), last)
  {
    AuthorityStep(pkg, at, p.head, p.questions, p.answers);
  }

  lemma {:induction false} AnswersStep(pkg: Bytes, at: nat, h: Head, qs: seq<Question>)
    ensures var r := ListAt(RecordAt, pkg, at, h.ancount);
            var x := AnswersFrom(pkg, at, h, qs);
            && (r.Read? ==> x == AuthorityFrom(pkg, r.end, h, qs, r.value))
            && (x.Read? ==> r.Read? && x.value.questions == qs && x.value.answers == r.value)
  {
    var r := ListAt(RecordAt, pkg, at, h.ancount);
    if r.Read? {
      AuthorityStep(pkg, r.end, h, qs, r.value);
    }
  }

  predicate RecordsOk(p: Package) {
    ListOk(RecordOk, p.answers, p.head.ancount) && LastTwoOk(p)
  }

  lemma {:induction false} AnswersJoin(p: Package, pkg: Bytes, at: nat, end: nat, last: nat)
    requires ListBack(RecordAt, RecordOk, p.answers, pkg, at, p.head.ancount, end)
    requires RestBack(AuthorityFrom(pkg, end, p.head, p.questions, p.answers), p, LastTwoOk(p), last)
    ensures RestBack(AnswersFrom(pkg, at, p.head, p.questions), p, RecordsOk(p), last)
  {
    AnswersStep(pkg, at, p.head, p.questions);
  }

  lemma {:induction false} QuestionsJoin(p: Package, pkg: Bytes, at: nat, end: nat, last: nat)
    requires ListBack(QuestionAt, QuestionOk, p.questions, pkg, at, p.head.qdcount, end)
    requires RestBack(AnswersFrom(pkg, end, p.head, p.questions), p, RecordsOk(p), last)
    ensures RestBack(QuestionsFrom(pkg, at, p.head), p, PackageOk(p), last)
  {
    var r := ListAt(QuestionAt, pkg, at, p.head.qdcount);
    if r.Read? {
      AnswersStep(pkg, r.end, p.head, r.value);
    }
  }

  lemma {:induction false} Sections(pkg: Bytes, h: Bytes, q: Bytes, a: Bytes, u: Bytes, d: Bytes)
    requires |h| == 12 && Holds(pkg, 0, h + (q + (a + (u + d))))
    ensures Holds(pkg, 0, h) && Holds(pkg, 12, q) && Holds(pkg, 12 + |q|, a)
    ensures Holds(pkg, 12 + |q| + |a|, u) && Holds(pkg, 12 + |q| + |a| + |u|, d)
  {
    HoldsParts(pkg, 0, h, q + (a + (u + d)));
    HoldsParts(pkg, 12, q, a + (u + d));
    HoldsParts(pkg, 12 + |q|, a, u + d);
    HoldsParts(pkg, 12 + |q| + |a|, u, d);
  }

  lemma {:induction false} AuthorityComesBack(p: Package, pkg: Bytes, u: Bytes, e1: nat, e2: nat, last: nat)
    requires EncodedList(EncodedRecord, p.authority) == Some(u) && Holds(pkg, e1, u) && e2 == e1 + |u|
    requires RestBack(AdditionalFrom(pkg, e2, p.head, p.questions, p.answers, p.authority), p,
                      ListOk(RecordOk, p.additional, p.head.arcount), last)
    ensures RestBack(AuthorityFrom(pkg, e1, p.head, p.questions, p.answers), p, LastTwoOk(p), last)
  {
    RecordsComeBack(p.authority, pkg, e1, p.head.nscount, u);
    AuthorityJoins(p, pkg, e1, e2, last);
  }

  lemma {:induction false} AnswersComeBack(p: Package, pkg: Bytes, a: Bytes, e0: nat, e1: nat, last: nat)
    requires EncodedList(EncodedRecord, p.answers) == Some(a) && Holds(pkg, e0, a) && e1 == e0 + |a|
    requires RestBack(AuthorityFrom(pkg, e1, p.head, p.questions, p.answers), p, LastTwoOk(p), last)
    ensures RestBack(AnswersFrom(pkg, e0, p.head, p.questions), p, RecordsOk(p), last)
  {
    RecordsComeBack(p.answers, pkg, e0, p.head.ancount, a);
    AnswersJoin(p, pkg, e0, e1, last);
  }

  lemma {:induction false} QuestionsAndRestComeBack(p: Package, pkg: Bytes, q: Bytes, e0: nat, last: nat)
    requires EncodedList(EncodedQuestion, p.questions) == Some(q) && Holds(pkg, 12, q) && e0 == 12 + |q|
    requires RestBack(AnswersFrom(pkg, e0, p.head, p.questions), p, RecordsOk(p), last)
    ensures RestBack(QuestionsFrom(pkg, 12, p.head), p, PackageOk(p), last)
  {
    QuestionsComeBack(p.questions, pkg, 12, p.head.qdcount, q);
    QuestionsJoin(p, pkg, 12, e0, last);
  }

  /** The bytes of a package, one part after the other. */
  ghost predicate Parts(p: Package, q: Bytes, a: Bytes, u: Bytes, d: Bytes) {
    && EncodedList(EncodedQuestion, p.questions) == Some(q) && EncodedList(EncodedRecord, p.answers) == Some(a)
    && EncodedList(EncodedRecord, p.authority) == Some(u) && EncodedList(EncodedRecord, p.additional) == Some(d)
  }

  lemma {:induction false} PartsOf(p: Package) returns (q: Bytes, a: Bytes, u: Bytes, d: Bytes)
    requires EncodedPackage(p).Some?
    ensures Parts(p, q, a, u, d) && EncodedPackage(p).value == EncodedHead(p.head) + (q + (a + (u + d)))
  {
    q := EncodedList(EncodedQuestion, p.questions).value;
    a := EncodedList(EncodedRecord, p.answers).value;
    u := EncodedList(EncodedRecord, p.authority).value;
    d := EncodedList(EncodedRecord, p.additional).value;
  }

  lemma {:induction false} LastTwoComeBack(p: Package, pkg: Bytes, u: Bytes, d: Bytes, e1: nat, e2: nat, last: nat)
    requires EncodedList(EncodedRecord, p.authority) == Some(u) && Holds(pkg, e1, u) && e2 == e1 + |u|
    requires EncodedList(EncodedRecord, p.additional) == Some(d) && Holds(pkg, e2, d) && last == e2 + |d|
    ensures RestBack(AuthorityFrom(pkg, e1, p.head, p.questions, p.answers), p, LastTwoOk(p), last)
  {
    AdditionalBack(p, pkg, e2, d);
    AuthorityComesBack(p, pkg, u, e1, e2, last);
  }

  lemma {:induction false} PartsComeBack(p: Package, pkg: Bytes, h: Bytes, q: Bytes, a: Bytes, u: Bytes, d: Bytes)
    requires Parts(p, q, a, u, d) && h == EncodedHead(p.head) && |h| == 12 && Holds(pkg, 0, h + (q + (a + (u + d))))
    ensures RestBack(QuestionsFrom(pkg, 12, p.head), p, PackageOk(p), 12 + |q| + |a| + |u| + |d|)
  {
    Sections(pkg, h, q, a, u, d);
    var e0 := 12 + |q|;
    var e1 := e0 + |a|;
    var e2 := e1 + |u|;
    var last := e2 + |d|;
    LastTwoComeBack(p, pkg, u, d, e1, e2, last);
    AnswersComeBack(p, pkg, a, e0, e1, last);
    QuestionsAndRestComeBack(p, pkg, q, e0, last);
  }

  /** Of all packages that can be written, those come back from their bytes whose counts are the
      lengths of their lists, whose names are non-empty labels with dots between them and whose data
      is shorter than 64K; and no others. What follows the bytes in the packet does not matter. */
  lemma {:induction false} MessageComesBack(p: Package, pkg: Bytes)
    requires EncodedPackage(p).Some? && Holds(pkg, 0, EncodedPackage(p).value)
    ensures PackageOk(p) ==> PackageOf(pkg) == Read(p, |EncodedPackage(p).value|)
    ensures !PackageOk(p) && PackageOf(pkg).Read? ==> PackageOf(pkg).value != p
  {
    var q, a, u, d := PartsOf(p);
    var h := EncodedHead(p.head);
    var rest := q + (a + (u + d));
    HoldsParts(pkg, 0, h, rest);
    HeadComesBack(p.head, pkg);
    PartsComeBack(p, pkg, h, q, a, u, d);
  }

  // ---------------------------------------------------------------- what can be written

  /** The labels of a name: what stands between its dots and at signs. */
  function LabelsOf(s: Bytes): (r: seq<Bytes>)
    ensures 0 < |r|
  {
    if s == [] then [[]]
    else if s[0] == DOT || s[0] == AT then [[]] + LabelsOf(s[1..])
    else
      var more := LabelsOf(s[1..]);
      [[s[0]] + more[0]] + more[1..]
  }

  ghost predicate AllShort(labels: seq<Bytes>) {
    forall i :: 0 <= i < |labels| ==> |labels[i]| <= MAXLABEL
  }

  ghost predicate NoneEmpty(labels: seq<Bytes>) {
    forall i :: 0 <= i < |labels| ==> labels[i] != []
  }

  /** The labels are written exactly when none is longer than 63 bytes. */
  lemma {:induction false} EmittedIffShort(lab: Bytes, s: Bytes)
    requires |lab| <= MAXLABEL
    ensures Emitted(lab, s).Some? <==> |lab| + |LabelsOf(s)[0]| <= MAXLABEL && AllShort(LabelsOf(s)[1..])
    decreases |s|
  {
    if s == [] {
    } else if s[0] == DOT || s[0] == AT {
      var more := LabelsOf(s[1..]);
      EmittedIffShort([], s[1..]);
      assert LabelsOf(s)[1..] == more;
      assert AllShort(more) <==> |more[0]| <= MAXLABEL && AllShort(more[1..]) by {
        assert more == [more[0]] + more[1..];
      }
    } else {
      if |lab| < MAXLABEL {
        EmittedIffShort(lab + [s[0]], s[1..]);
      }
      assert LabelsOf(s)[1..] == LabelsOf(s[1..])[1..];
    }
  }

  /** A name can be written exactly when it is not empty and no label is longer than 63 bytes. */
  predicate Writable(s: Bytes) {
    var c := CStr(s);
    c != [] && forall i :: 0 <= i < |LabelsOf(c)| ==> |LabelsOf(c)[i]| <= MAXLABEL
  }

  lemma {:induction false} NameWritten(s: Bytes)
    ensures EncodedName(s).Some? <==> Writable(s)
  {
    var c := CStr(s);
    var labels := LabelsOf(c);
    EmittedIffShort([], c);
    assert labels == [labels[0]] + labels[1..];
  }

  /** The labels come back when none is empty and there is no at sign. */
  lemma {:induction false} LabelsOkMeans(lab: Bytes, s: Bytes)
    ensures LabelsOk(lab, s) <==> AT !in s && lab + LabelsOf(s)[0] != [] && NoneEmpty(LabelsOf(s)[1..])
    decreases |s|
  {
    if s == [] {
    } else if s[0] == DOT || s[0] == AT {
      var more := LabelsOf(s[1..]);
      LabelsOkMeans([], s[1..]);
      assert LabelsOf(s)[1..] == more;
      assert NoneEmpty(more) <==> more[0] != [] && NoneEmpty(more[1..]) by {
        assert more == [more[0]] + more[1..];
      }
      assert s == [s[0]] + s[1..];
    } else {
      LabelsOkMeans(lab + [s[0]], s[1..]);
      assert s == [s[0]] + s[1..];
      assert LabelsOf(s)[1..] == LabelsOf(s[1..])[1..];
    }
  }

  /** Names made of dotted labels of 1 to 63 bytes. */
  ghost predicate Dotted(s: Bytes) {
    && 0 !in s && AT !in s
    && forall i :: 0 <= i < |LabelsOf(s)| ==> 1 <= |LabelsOf(s)[i]| <= MAXLABEL
  }

  /** They are exactly the names that can be written and come back, and take two bytes more. */
  lemma {:induction false} DottedMeans(s: Bytes)
    ensures Dotted(s) <==> EncodedName(s).Some? && NameOk(s)
    ensures Dotted(s) ==> |EncodedName(s).value| == |s| + 2
  {
    var labels := LabelsOf(s);
    NameWritten(s);
    LabelsOkMeans([], s);
    assert labels == [labels[0]] + labels[1..];
    if Dotted(s) {
      EmittedSize([], s);
    }
  }

  lemma {:induction false} EmittedSize(lab: Bytes, s: Bytes)
    requires |lab| <= MAXLABEL && Emitted(lab, s).Some? && LabelsOk(lab, s)
    ensures |Emitted(lab, s).value| == |lab| + |s| + 2
    decreases |s|
  {
    if s == [] {
    } else if s[0] == DOT {
      EmittedSize([], s[1..]);
    } else {
      EmittedSize(lab + [s[0]], s[1..]);
    }
  }

  /** A list can be written exactly when every item can. */
  lemma {:induction false} ListWritten<T>(enc: T -> Option<Bytes>, ts: seq<T>)
    ensures EncodedList(enc, ts).Some? <==> forall i :: 0 <= i < |ts| ==> enc(ts[i]).Some?
  {
    if ts != [] {
      ListWritten(enc, ts[1..]);
      assert forall i :: 0 < i < |ts| ==> ts[i] == ts[1..][i - 1];
      if forall i :: 0 <= i < |ts| ==> enc(ts[i]).Some? {
        assert forall i :: 0 <= i < |ts[1..]| ==> ts[1..][i] == ts[i + 1];
      }
    }
  }

  ghost predicate NamesWritable(p: Package) {
    && (forall i :: 0 <= i < |p.questions| ==> Writable(p.questions[i].name))
    && RecordNamesWritable(p.answers) && RecordNamesWritable(p.authority) && RecordNamesWritable(p.additional)
  }

  ghost predicate RecordNamesWritable(rs: seq<Record>) {
    forall i :: 0 <= i < |rs| ==> Writable(rs[i].name)
  }

  lemma {:induction false} RecordsWritten(rs: seq<Record>)
    ensures EncodedList(EncodedRecord, rs).Some? <==> RecordNamesWritable(rs)
  {
    ListWritten(EncodedRecord, rs);
    forall i | 0 <= i < |rs| ensures EncodedRecord(rs[i]).Some? <==> Writable(rs[i].name) {
      NameWritten(rs[i].name);
    }
  }

  lemma {:induction false} QuestionsWritten(qs: seq<Question>)
    ensures EncodedList(EncodedQuestion, qs).Some? <==> forall i :: 0 <= i < |qs| ==> Writable(qs[i].name)
  {
    ListWritten(EncodedQuestion, qs);
    forall i | 0 <= i < |qs| ensures EncodedQuestion(qs[i]).Some? <==> Writable(qs[i].name) {
      NameWritten(qs[i].name);
    }
  }

  /** A package can be written exactly when all its names can. */
  lemma {:induction false} PackageWritten(p: Package)
    ensures EncodedPackage(p).Some? <==> NamesWritable(p)
  {
    QuestionsWritten(p.questions);
    RecordsWritten(p.answers);
    RecordsWritten(p.authority);
    RecordsWritten(p.additional);
  }

  /** The packages that go there and back: counts that are the lengths of the lists, names of dotted
      labels of 1 to 63 bytes, data shorter than 64K. */
  ghost predicate WellFormed(p: Package) {
    && p.head.qdcount == |p.questions| && (forall i :: 0 <= i < |p.questions| ==> Dotted(p.questions[i].name))
    && p.head.ancount == |p.answers| && RecordsWellFormed(p.answers)
    && p.head.nscount == |p.authority| && RecordsWellFormed(p.authority)
    && p.head.arcount == |p.additional| && RecordsWellFormed(p.additional)
  }

  ghost predicate RecordsWellFormed(rs: seq<Record>) {
    forall i :: 0 <= i < |rs| ==> Dotted(rs[i].name) && |rs[i].data| < 0x1_0000
  }

  lemma {:induction false} AllOkMeans<T>(ok: T -> bool, ts: seq<T>)
    ensures AllOk(ok, ts) <==> forall i :: 0 <= i < |ts| ==> ok(ts[i])
  {
    if ts != [] {
      AllOkMeans(ok, ts[1..]);
      assert forall i :: 0 < i < |ts| ==> ts[i] == ts[1..][i - 1];
      if forall i :: 0 <= i < |ts| ==> ok(ts[i]) {
        assert forall i :: 0 <= i < |ts[1..]| ==> ts[1..][i] == ts[i + 1];
      }
    }
  }

  lemma {:induction false} RecordsAllOk(rs: seq<Record>)
    ensures RecordsWellFormed(rs) <==> RecordNamesWritable(rs) && AllOk(RecordOk, rs)
  {
    AllOkMeans(RecordOk, rs);
    forall i | 0 <= i < |rs|
      ensures Dotted(rs[i].name) && |rs[i].data| < 0x1_0000 <==> Writable(rs[i].name) && RecordOk(rs[i]) {
      DottedMeans(rs[i].name);
      NameWritten(rs[i].name);
    }
  }

  lemma {:induction false} QuestionsAllOk(qs: seq<Question>)
    ensures (forall i :: 0 <= i < |qs| ==> Dotted(qs[i].name))
       <==> (forall i :: 0 <= i < |qs| ==> Writable(qs[i].name)) && AllOk(QuestionOk, qs)
  {
    AllOkMeans(QuestionOk, qs);
    forall i | 0 <= i < |qs| ensures Dotted(qs[i].name) <==> Writable(qs[i].name) && QuestionOk(qs[i]) {
      DottedMeans(qs[i].name);
      NameWritten(qs[i].name);
    }
  }

  lemma {:induction false} WellFormedMeans(p: Package)
    ensures WellFormed(p) <==> EncodedPackage(p).Some? && PackageOk(p)
  {
    PackageWritten(p);
    QuestionsAllOk(p.questions);
    RecordsAllOk(p.answers);
    RecordsAllOk(p.authority);
    RecordsAllOk(p.additional);
  }

  function QuestionsRoom(qs: seq<Question>): nat {
    if qs == [] then 0 else |qs[0].name| + 6 + QuestionsRoom(qs[1..])
  }

  function RecordsRoom(rs: seq<Record>): nat {
    if rs == [] then 0 else |rs[0].name| + |rs[0].data| + 12 + RecordsRoom(rs[1..])
  }

  /** The bytes of a well-formed package. */
  function Room(p: Package): nat {
    12 + QuestionsRoom(p.questions) + RecordsRoom(p.answers) + RecordsRoom(p.authority) + RecordsRoom(p.additional)
  }

  lemma {:induction false} QuestionsNeed(qs: seq<Question>)
    requires forall i :: 0 <= i < |qs| ==> Dotted(qs[i].name)
    ensures EncodedList(EncodedQuestion, qs).Some? && |EncodedList(EncodedQuestion, qs).value| == QuestionsRoom(qs)
  {
    if qs != [] {
      DottedMeans(qs[0].name);
      QuestionsNeed(qs[1..]);
    }
  }

  lemma {:induction false} RecordsNeed(rs: seq<Record>)
    requires RecordsWellFormed(rs)
    ensures EncodedList(EncodedRecord, rs).Some? && |EncodedList(EncodedRecord, rs).value| == RecordsRoom(rs)
  {
    if rs != [] {
      DottedMeans(rs[0].name);
      RecordsNeed(rs[1..]);
    }
  }

  lemma {:induction false} RoomNeeded(p: Package)
    requires WellFormed(p)
    ensures EncodedPackage(p).Some? && |EncodedPackage(p).value| == Room(p)
  {
    QuestionsNeed(p.questions);
    RecordsNeed(p.answers);
    RecordsNeed(p.authority);
    RecordsNeed(p.additional);
  }
}
