/** Names in messages by their labels: how they are laid out, and names that end in a pointer
    (RFC 1035, section 4.1.4). */
module DnsNames {
  import opened Octets
  import opened DnsMessage

  /** Labels of 1 to 63 bytes. */
  ghost predicate Fit(labels: seq<Bytes>) {
    forall i :: 0 <= i < |labels| ==> 1 <= |labels[i]| <= 63
  }

  /** The labels one after the other, the length of each in front of it. */
  function Layout(labels: seq<Bytes>): Bytes
    requires Fit(labels)
  {
    if labels == [] then [] else [|labels[0]|] + labels[0] + Layout(labels[1..])
  }

  /** The labels with dots between them. */
  function WithDots(labels: seq<Bytes>): Bytes {
    if labels == [] then [] else if |labels| == 1 then labels[0] else labels[0] + [46] + WithDots(labels[1..])
  }

  /** What is known of a name when these labels follow. */
  function Followed(name: Bytes, started: bool, labels: seq<Bytes>): Bytes
    decreases |labels|
  {
    if labels == [] then name else Followed(Joined(name, started) + labels[0], true, labels[1..])
  }

  lemma {:induction false} FollowedIs(name: Bytes, started: bool, labels: seq<Bytes>)
    requires labels != []
    ensures Followed(name, started, labels) == Joined(name, started) + WithDots(labels)
    decreases |labels|
  {
    var front := Joined(name, started) + labels[0];
    if |labels| > 1 {
      FollowedIs(front, true, labels[1..]);
      assert front + [46] + WithDots(labels[1..]) == Joined(name, started) + (labels[0] + [46] + WithDots(labels[1..]));
    }
  }

  lemma {:induction false} FollowedTwice(name: Bytes, labels: seq<Bytes>)
    requires labels != []
    ensures Followed(name, false, labels) == name + WithDots(labels)
  {
    FollowedIs(name, false, labels);
  }

  lemma {:induction false} FollowedAlone(labels: seq<Bytes>)
    requires labels != []
    ensures Followed([], false, labels) == WithDots(labels)
  {
    FollowedIs([], false, labels);
    assert [] + WithDots(labels) == WithDots(labels);
  }

  lemma {:induction false} LayoutMore(labels: seq<Bytes>, rest: Bytes)
    requires Fit(labels) && labels != []
    ensures Fit(labels[1..]) && Layout(labels) + rest == Label(labels[0]) + (Layout(labels[1..]) + rest)
    ensures |Layout(labels)| == |labels[0]| + 1 + |Layout(labels[1..])|
  {
  }

  lemma {:induction false} LabelsReadOne(labels: seq<Bytes>, pkg: Bytes, at: nat, name: Bytes, started: bool, rest: Bytes)
    requires Fit(labels) && labels != [] && rest != [] && Holds(pkg, at, Layout(labels) + rest)
    ensures var next := at + |labels[0]| + 1;
            && next < |pkg| && Fit(labels[1..]) && Holds(pkg, next, Layout(labels[1..]) + rest)
            && next + |Layout(labels[1..])| == at + |Layout(labels)|
            && NameFrom(pkg, at, name, started) == NameFrom(pkg, next, Joined(name, started) + labels[0], true)
  {
    LayoutMore(labels, rest);
    var more := Layout(labels[1..]) + rest;
    ReadLabel(pkg, at, labels[0], name, started, more);
  }

  /** Reading goes on behind the labels. */
  lemma {:induction false} LabelsRead(labels: seq<Bytes>, pkg: Bytes, at: nat, name: Bytes, started: bool, rest: Bytes)
    requires Fit(labels) && labels != [] && rest != [] && Holds(pkg, at, Layout(labels) + rest)
    ensures var end := at + |Layout(labels)|;
            && Holds(pkg, end, rest) && at < end < |pkg|
            && NameFrom(pkg, at, name, started) == NameFrom(pkg, end, Followed(name, started, labels), true)
    decreases |labels|
  {
    LabelsReadOne(labels, pkg, at, name, started, rest);
    var front, more, next := Joined(name, started) + labels[0], labels[1..], at + |labels[0]| + 1;
    assert Followed(name, started, labels) == Followed(front, true, more);
    if more == [] {
      assert Layout(more) + rest == rest;
    } else {
      LabelsRead(more, pkg, next, front, true, rest);
    }
  }

  lemma {:induction false} LabelsPointedOne(labels: seq<Bytes>, pkg: Bytes, at: nat, name: Bytes, started: bool, rest: Bytes)
    requires Fit(labels) && labels != [] && rest != [] && Holds(pkg, at, Layout(labels) + rest)
    ensures var next := at + |labels[0]| + 1;
            && next < |pkg| && Fit(labels[1..]) && Holds(pkg, next, Layout(labels[1..]) + rest)
            && next + |Layout(labels[1..])| == at + |Layout(labels)|
            && Pointed(pkg, at, name, started) == Pointed(pkg, next, Joined(name, started) + labels[0], true)
  {
    LayoutMore(labels, rest);
    var more := Layout(labels[1..]) + rest;
    PointedLabel(pkg, at, labels[0], name, started, more);
  }

  lemma {:induction false} LabelsPointed(labels: seq<Bytes>, pkg: Bytes, at: nat, name: Bytes, started: bool, rest: Bytes)
    requires Fit(labels) && labels != [] && rest != [] && Holds(pkg, at, Layout(labels) + rest)
    ensures var end := at + |Layout(labels)|;
            && Holds(pkg, end, rest) && at < end < |pkg|
            && Pointed(pkg, at, name, started) == Pointed(pkg, end, Followed(name, started, labels), true)
    decreases |labels|
  {
    LabelsPointedOne(labels, pkg, at, name, started, rest);
    var front, more, next := Joined(name, started) + labels[0], labels[1..], at + |labels[0]| + 1;
    assert Followed(name, started, labels) == Followed(front, true, more);
    if more == [] {
      assert Layout(more) + rest == rest;
    } else {
      LabelsPointed(more, pkg, next, front, true, rest);
    }
  }

  lemma {:induction false} FirstByte(pkg: Bytes, at: nat, part: Bytes)
    requires part != [] && Holds(pkg, at, part)
    ensures pkg[at] == part[0]
  {
    assert pkg[at..at + |part|][0] == pkg[at];
  }

  /** Labels that are ended by a zero byte are the name with dots. */
  lemma {:induction false} PlainName(labels: seq<Bytes>, pkg: Bytes, at: nat)
    requires Fit(labels) && labels != [] && Holds(pkg, at, Layout(labels) + [0])
    ensures NameAt(pkg, at) == Read(WithDots(labels), at + |Layout(labels)| + 1)
  {
    LabelsRead(labels, pkg, at, [], false, [0]);
    FirstByte(pkg, at + |Layout(labels)|, [0]);
    FollowedAlone(labels);
  }

  /** A pointer at `at`, to labels that are ended by a zero byte or by another pointer, which is not
      followed. */
  lemma {:induction false} PointerRead(labels: seq<Bytes>, stop: Byte, pkg: Bytes, at: nat, target: nat, hi: Byte, lo: Byte,
                                       name: Bytes)
    requires Fit(labels) && labels != [] && Holds(pkg, target, Layout(labels) + [stop]) && (stop == 0 || 64 <= stop)
    requires target < 0x4000 && hi == 0xc0 + target / 256 && lo == target % 256 && Holds(pkg, at, [hi, lo])
    ensures FollowedPointer(pkg, at, name) == if at + 2 < |pkg| then Read(name + WithDots(labels), at + 2) else Failed
  {
    PointerBytes(target);
    FirstByte(pkg, at, [hi, lo]);
    assert pkg[at + 1] == pkg[at..at + 2][1];
    LabelsPointed(labels, pkg, target, name, false, [stop]);
    FirstByte(pkg, target + |Layout(labels)|, [stop]);
    FollowedTwice(name, labels);
  }

  /** A name of labels `front` and a pointer to labels `back` is the labels of both with dots between
      them, and ends behind the pointer; at the very end of the packet it is not read. */
  lemma {:induction false} CompressedName(front: seq<Bytes>, back: seq<Bytes>, stop: Byte,
                                          pkg: Bytes, at: nat, target: nat, hi: Byte, lo: Byte)
    requires Fit(front) && front != [] && Holds(pkg, at, Layout(front) + [hi, lo])
    requires Fit(back) && back != [] && Holds(pkg, target, Layout(back) + [stop]) && (stop == 0 || 64 <= stop)
    requires target < 0x4000 && hi == 0xc0 + target / 256 && lo == target % 256
    ensures var end := at + |Layout(front)| + 2;
            NameAt(pkg, at) == if end < |pkg| then Read(WithDots(front) + [46] + WithDots(back), end) else Failed
  {
    var mid := at + |Layout(front)|;
    LabelsRead(front, pkg, at, [], false, [hi, lo]);
    FollowedAlone(front);
    FirstByte(pkg, mid, [hi, lo]);
    PointerRead(back, stop, pkg, mid, target, hi, lo, WithDots(front) + [46]);
  }

  /** A pointer alone. */
  lemma {:induction false} PointerAlone(back: seq<Bytes>, stop: Byte, pkg: Bytes, at: nat, target: nat, hi: Byte, lo: Byte)
    requires Fit(back) && back != [] && Holds(pkg, target, Layout(back) + [stop]) && (stop == 0 || 64 <= stop)
    requires target < 0x4000 && hi == 0xc0 + target / 256 && lo == target % 256 && Holds(pkg, at, [hi, lo])
    ensures NameAt(pkg, at) == if at + 2 < |pkg| then Read(WithDots(back), at + 2) else Failed
  {
    FirstByte(pkg, at, [hi, lo]);
    PointerRead(back, stop, pkg, at, target, hi, lo, []);
    assert [] + WithDots(back) == WithDots(back);
  }

  // ---------------------------------------------------------------- what is written

  ghost predicate Plain(labels: seq<Bytes>) {
    Fit(labels) && forall i :: 0 <= i < |labels| ==> PlainLabel(labels[i])
  }

  ghost predicate PlainLabel(lab: Bytes) {
    0 !in lab && DOT !in lab && AT !in lab
  }

  /** The rest of a name behind its first label. */
  function Behind(labels: seq<Bytes>): Bytes {
    if labels == [] then [] else [46] + WithDots(labels)
  }

  lemma {:induction false} DotsAreBehind(labels: seq<Bytes>)
    requires labels != []
    ensures WithDots(labels) == labels[0] + Behind(labels[1..])
  {
  }

  lemma {:induction false} LabelEnds(lab: Bytes, labels: seq<Bytes>)
    requires 1 <= |lab| <= 63 && Fit(labels)
    requires labels != [] ==> Emitted([], WithDots(labels)) == Some(Layout(labels) + [0])
    ensures Emitted(lab, Behind(labels)) == Some(Label(lab) + (Layout(labels) + [0]))
  {
    if labels == [] {
      assert Layout(labels) + [0] == [0];
    } else {
      assert Behind(labels)[0] == DOT && Behind(labels)[1..] == WithDots(labels);
    }
  }

  lemma {:induction false} LetterEmitted(lab: Bytes, s: Bytes)
    requires s != [] && s[0] != DOT && s[0] != AT && |lab| < 63
    ensures Emitted(lab, s) == Emitted(lab + [s[0]], s[1..])
  {
  }

  lemma {:induction false} LabelsEmitted(lab: Bytes, tail: Bytes, labels: seq<Bytes>)
    requires 1 <= |lab| + |tail| <= 63 && PlainLabel(tail) && Plain(labels)
    ensures Emitted(lab, tail + Behind(labels)) == Some(Label(lab + tail) + (Layout(labels) + [0]))
    decreases |labels|, 1, |tail|
  {
    var s := tail + Behind(labels);
    if tail != [] {
      var longer := lab + [tail[0]];
      assert s[0] == tail[0] && s[1..] == tail[1..] + Behind(labels);
      assert longer + tail[1..] == lab + tail;
      LetterEmitted(lab, s);
      LabelsEmitted(longer, tail[1..], labels);
    } else {
      assert s == Behind(labels) && lab + tail == lab;
      if labels != [] {
        NameLayout(labels);
      }
      LabelEnds(lab, labels);
    }
  }

  lemma {:induction false} NameLayout(labels: seq<Bytes>)
    requires Plain(labels) && labels != []
    ensures Emitted([], WithDots(labels)) == Some(Layout(labels) + [0])
    decreases |labels|, 0, 0
  {
    DotsAreBehind(labels);
    LabelsEmitted([], labels[0], labels[1..]);
    assert [] + labels[0] == labels[0];
    LayoutMore(labels, [0]);
  }

  lemma {:induction false} NoZero(labels: seq<Bytes>)
    requires Plain(labels)
    ensures 0 !in WithDots(labels)
  {
    if |labels| > 1 {
      NoZero(labels[1..]);
    }
  }

  /** A name of dotted labels is written as the labels, the length of each in front of it, and a zero
      byte. */
  lemma {:induction false} NameBytes(labels: seq<Bytes>)
    requires Plain(labels) && labels != []
    ensures EncodedName(WithDots(labels)) == Some(Layout(labels) + [0])
  {
    NoZero(labels);
    DotsAreBehind(labels);
    NameLayout(labels);
  }
}
