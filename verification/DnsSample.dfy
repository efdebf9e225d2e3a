/** A reply as it comes from a server, byte by byte: flags, sections in order, compressed names. */
module DnsSample {
  import opened Octets
  import opened DnsMessage
  import opened DnsNames

  // ---- The bits of the flags ----

  /** Each flag at its place in the second word of the head (RFC 1035, section 4.1.1). */
  lemma {:induction false} FlagPlaces()
    ensures Packed(Flags(1, 0, 0, 0, 0, 0, 0, 0)) == 0x8000
    ensures Packed(Flags(0, 15, 0, 0, 0, 0, 0, 0)) == 0x7800
    ensures Packed(Flags(0, 0, 1, 0, 0, 0, 0, 0)) == 0x0400
    ensures Packed(Flags(0, 0, 0, 1, 0, 0, 0, 0)) == 0x0200
    ensures Packed(Flags(0, 0, 0, 0, 1, 0, 0, 0)) == 0x0100
    ensures Packed(Flags(0, 0, 0, 0, 0, 1, 0, 0)) == 0x0080
    ensures Packed(Flags(0, 0, 0, 0, 0, 0, 7, 0)) == 0x0070
    ensures Packed(Flags(0, 0, 0, 0, 0, 0, 0, 15)) == 0x000f
    ensures Packed(Flags(1, 2, 0, 1, 1, 0, 0, 3)) == 0x9303
  {
  }

  /** The twelve bytes of a head. */
  lemma {:induction false} HeadWritten()
    ensures EncodedHead(Head(0x1234, Flags(1, 2, 0, 1, 1, 0, 0, 3), 1, 2, 3, 260))
         == [0x12, 0x34, 0x93, 0x03, 0, 1, 0, 2, 0, 3, 1, 4]
  {
    assert Two(0x1234) == [0x12, 0x34] && Two(0x9303) == [0x93, 0x03] && Two(260) == [1, 4];
    assert Two(1) == [0, 1] && Two(2) == [0, 2] && Two(3) == [0, 3];
  }

  // ---- The reply ----

  const HEAD: Bytes := [0x12, 0x34, 0x81, 0x80, 0, 1, 0, 1, 0, 1, 0, 1]
  const WWW: Bytes := [119, 119, 119]
  const NS: Bytes := [110, 115]
  const EXAMPLE: Bytes := [101, 120, 97, 109, 112, 108, 101]
  const COM: Bytes := [99, 111, 109]

  /** www.example.com at place 12, so that example.com is at 16; type 28, class 1. */
  const QUESTION: Bytes := [3] + WWW + [7] + EXAMPLE + [3] + COM + [0] + [0, 28, 0, 1]
  /** A pointer to 12, an address. */
  const ANSWER: Bytes := [0xc0, 12] + [0, 1, 0, 1, 0, 0, 1, 44, 0, 4, 93, 184, 216, 34]
  /** The domain, a pointer to 16; the data is not looked into. */
  const AUTHORITY: Bytes := [0xc0, 16] + [0, 2, 0, 1, 0, 1, 0x51, 0x80, 0, 5, 2, 110, 115, 0xc0, 16]
  /** The label ns and a pointer to 16, with a time to live of -1. */
  const ADDITIONAL: Bytes := [2] + NS + [0xc0, 16] + [0, 1, 0, 1, 255, 255, 255, 255, 0, 4, 10, 0, 0, 1]

  const REPLY: Bytes := HEAD + (QUESTION + (ANSWER + (AUTHORITY + ADDITIONAL)))

  const WWW_NAME := WWW + [46] + EXAMPLE + [46] + COM
  const EXAMPLE_NAME := EXAMPLE + [46] + COM
  const NS_NAME := NS + [46] + EXAMPLE + [46] + COM

  const HOST := Record(WWW_NAME, 1, 1, 300, [93, 184, 216, 34])
  const SERVER := Record(EXAMPLE_NAME, 2, 1, 86400, [2, 110, 115, 0xc0, 16])
  const GLUE := Record(NS_NAME, 1, 1, -1, [10, 0, 0, 1])

  const CONTENT := Package(
    Head(0x1234, Flags(1, 0, 0, 0, 1, 1, 0, 0), 1, 1, 1, 1), [Question(WWW_NAME, 28, 1)], [HOST], [SERVER], [GLUE])

  lemma {:induction false} Layouts()
    ensures Layout([WWW, EXAMPLE, COM]) == [3] + WWW + [7] + EXAMPLE + [3] + COM
    ensures Layout([EXAMPLE, COM]) == [7] + EXAMPLE + [3] + COM
    ensures Layout([NS]) == [2] + NS
    ensures WithDots([WWW, EXAMPLE, COM]) == WWW_NAME && WithDots([EXAMPLE, COM]) == EXAMPLE_NAME && WithDots([NS]) == NS
  {
    var c: seq<Bytes>, e: seq<Bytes>, w: seq<Bytes>, n: seq<Bytes> := [COM], [EXAMPLE, COM], [WWW, EXAMPLE, COM], [NS];
    assert c[1..] == [] && e[1..] == c && w[1..] == e && n[1..] == [];
    assert Layout(c) == [3] + COM;
    assert Layout(e) == [7] + EXAMPLE + ([3] + COM);
    assert Layout(w) == [3] + WWW + Layout(e);
    assert Layout(n) == [2] + NS;
    assert WithDots(e) == EXAMPLE_NAME;
    assert WithDots(w) == WWW + [46] + EXAMPLE_NAME;
  }

  ghost predicate Sections(pkg: Bytes) {
    && Holds(pkg, 0, HEAD) && Holds(pkg, 12, QUESTION) && Holds(pkg, 33, ANSWER)
    && Holds(pkg, 49, AUTHORITY) && Holds(pkg, 66, ADDITIONAL) && |pkg| == 85
  }

  lemma {:induction false} SectionsOfReply()
    ensures Sections(REPLY)
  {
    assert |QUESTION| == 21 && |ANSWER| == 16 && |AUTHORITY| == 17 && |ADDITIONAL| == 19;
    var d := AUTHORITY + ADDITIONAL;
    var c := ANSWER + d;
    var b := QUESTION + c;
    assert Holds(REPLY, 0, REPLY);
    HoldsParts(REPLY, 0, HEAD, b);
    HoldsParts(REPLY, 12, QUESTION, c);
    HoldsParts(REPLY, 33, ANSWER, d);
    HoldsParts(REPLY, 49, AUTHORITY, ADDITIONAL);
  }

  lemma {:induction false} HeadRead(pkg: Bytes)
    requires Holds(pkg, 0, HEAD)
    ensures |pkg| >= 12 && HeadOf(pkg) == CONTENT.head
  {
    assert EncodedHead(CONTENT.head) == HEAD;
    HeadComesBack(CONTENT.head, pkg);
  }

  /** The two names at 12 and 16. */
  lemma {:induction false} NamesHeld(pkg: Bytes)
    requires Holds(pkg, 12, QUESTION)
    ensures Fit([WWW, EXAMPLE, COM]) && Holds(pkg, 12, Layout([WWW, EXAMPLE, COM]) + [0])
    ensures Fit([EXAMPLE, COM]) && Holds(pkg, 16, Layout([EXAMPLE, COM]) + [0])
    ensures Holds(pkg, 29, [0, 28, 0, 1])
  {
    Layouts();
    var e := Layout([EXAMPLE, COM]) + [0];
    assert QUESTION == [3] + WWW + e + [0, 28, 0, 1];
    HoldsParts(pkg, 12, [3] + WWW + e, [0, 28, 0, 1]);
    HoldsParts(pkg, 12, [3] + WWW, e);
    assert [3] + WWW + e == Layout([WWW, EXAMPLE, COM]) + [0];
  }

  lemma {:induction false} QuestionRead(pkg: Bytes)
    requires Holds(pkg, 12, QUESTION)
    ensures QuestionAt(pkg, 12) == Read(Question(WWW_NAME, 28, 1), 33)
  {
    NamesHeld(pkg);
    Layouts();
    PlainName([WWW, EXAMPLE, COM], pkg, 12);
    HoldsParts(pkg, 29, Two(28), Two(1));
    TwoComesBack(28, pkg, 29);
    TwoComesBack(1, pkg, 31);
  }

  lemma {:induction false} HostRead(pkg: Bytes)
    requires Holds(pkg, 12, QUESTION) && Holds(pkg, 33, ANSWER)
    ensures RecordAt(pkg, 33) == Read(HOST, 49)
  {
    NamesHeld(pkg);
    Layouts();
    assert ANSWER == [0xc0, 12] + RecordTail(HOST);
    HoldsParts(pkg, 33, [0xc0, 12], RecordTail(HOST));
    PointerAlone([WWW, EXAMPLE, COM], 0, pkg, 33, 12, 0xc0, 12);
    RecordBehind(HOST, pkg, 33, WWW_NAME, 35);
  }

  lemma {:induction false} ServerRead(pkg: Bytes)
    requires Holds(pkg, 12, QUESTION) && Holds(pkg, 49, AUTHORITY)
    ensures RecordAt(pkg, 49) == Read(SERVER, 66)
  {
    NamesHeld(pkg);
    Layouts();
    assert AUTHORITY == [0xc0, 16] + RecordTail(SERVER);
    HoldsParts(pkg, 49, [0xc0, 16], RecordTail(SERVER));
    PointerAlone([EXAMPLE, COM], 0, pkg, 49, 16, 0xc0, 16);
    RecordBehind(SERVER, pkg, 49, EXAMPLE_NAME, 51);
  }

  lemma {:induction false} GlueRead(pkg: Bytes)
    requires Holds(pkg, 12, QUESTION) && Holds(pkg, 66, ADDITIONAL)
    ensures RecordAt(pkg, 66) == Read(GLUE, 85)
  {
    NamesHeld(pkg);
    Layouts();
    var name := Layout([NS]) + [0xc0, 16];
    assert ADDITIONAL == name + RecordTail(GLUE);
    HoldsParts(pkg, 66, name, RecordTail(GLUE));
    CompressedName([NS], [EXAMPLE, COM], 0, pkg, 66, 16, 0xc0, 16);
    assert NS + [46] + EXAMPLE_NAME == NS_NAME;
    RecordBehind(GLUE, pkg, 66, NS_NAME, 71);
  }

  lemma {:induction false} OneItem<T>(read: (Bytes, nat) -> Reading<T>, pkg: Bytes, at: nat, t: T, end: nat)
    requires read(pkg, at) == Read(t, end)
    ensures ListAt(read, pkg, at, 1) == Read([t], end)
  {
    var none: Reading<seq<T>> := ListAt(read, pkg, end, 0);
    assert none == Read([], end) && [t] + none.value == [t];
  }

  lemma {:induction false} Assembled(pkg: Bytes, h: Head, qs: seq<Question>, e1: nat, an: seq<Record>, e2: nat,
                                     ns: seq<Record>, e3: nat, ar: seq<Record>, e4: nat)
    requires |pkg| >= 12 && HeadOf(pkg) == h
    requires ListAt(QuestionAt, pkg, 12, h.qdcount) == Read(qs, e1)
    requires ListAt(RecordAt, pkg, e1, h.ancount) == Read(an, e2)
    requires ListAt(RecordAt, pkg, e2, h.nscount) == Read(ns, e3)
    requires ListAt(RecordAt, pkg, e3, h.arcount) == Read(ar, e4)
    ensures PackageOf(pkg) == Read(Package(h, qs, an, ns, ar), e4)
  {
  }

  lemma {:induction false} SectionsRead(pkg: Bytes)
    requires Sections(pkg)
    ensures PackageOf(pkg) == Read(CONTENT, 85)
  {
    HeadRead(pkg);
    QuestionRead(pkg);
    HostRead(pkg);
    ServerRead(pkg);
    GlueRead(pkg);
    OneItem(QuestionAt, pkg, 12, Question(WWW_NAME, 28, 1), 33);
    OneItem(RecordAt, pkg, 33, HOST, 49);
    OneItem(RecordAt, pkg, 49, SERVER, 66);
    OneItem(RecordAt, pkg, 66, GLUE, 85);
    Assembled(pkg, CONTENT.head, CONTENT.questions, 33, CONTENT.answers, 49, CONTENT.authority, 66, CONTENT.additional, 85);
  }

  /** The 85 bytes of the reply are read as its content, field by field. */
  lemma {:induction false} ReplyRead()
    ensures PackageOf(REPLY) == Read(CONTENT, 85)
  {
    SectionsOfReply();
    SectionsRead(REPLY);
  }

  /** The question of the reply is written as it is read. */
  lemma {:induction false} QuestionWritten()
    ensures EncodedQuestion(Question(WWW_NAME, 28, 1)) == Some(QUESTION)
  {
    Layouts();
    assert Plain([WWW, EXAMPLE, COM]);
    NameBytes([WWW, EXAMPLE, COM]);
    var name := Layout([WWW, EXAMPLE, COM]) + [0];
    assert Two(28) + Two(1) == [0, 28, 0, 1];
    assert name + [0, 28, 0, 1] == QUESTION;
  }
}
