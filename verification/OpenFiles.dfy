/** The open files of a table space: file 0 stays open, of the others the most recently used. */
module OpenFiles {

  const LIMIT := 8
  const NO_FILE := -1

  /** An open file, by its number and its handle. */
  datatype Entry = Entry(key: int, file: int)

  function Keys(s: seq<Entry>): seq<int> {
    seq(|s|, i requires 0 <= i < |s| => s[i].key)
  }

  function Without(s: seq<int>, k: int): (r: seq<int>)
    ensures |r| <= |s| && k !in r && (forall x :: x in r <==> x in s && x != k)
  {
    if s == [] then [] else (if s[0] == k then [] else [s[0]]) + Without(s[1..], k)
  }

  /** The keys of a history, each where it was used last; the history starts with the latest use. */
  function LatestUses(history: seq<int>): (r: seq<int>)
    ensures forall k :: k in r <==> k in history
  {
    if history == [] then [] else [history[0]] + Without(LatestUses(history[1..]), history[0])
  }

  ghost predicate Distinct(s: seq<int>) {
    forall i, j :: 0 <= i < j < |s| ==> s[i] != s[j]
  }

  lemma {:induction false} WithoutDistinct(s: seq<int>, k: int)
    requires Distinct(s)
    ensures Distinct(Without(s, k)) && (k !in s ==> Without(s, k) == s)
  {
    if s != [] {
      WithoutDistinct(s[1..], k);
      assert s == [s[0]] + s[1..];
      assert s[0] !in s[1..];
      var r := Without(s[1..], k);
      assert forall i :: 0 <= i < |r| ==> r[i] in r;
    }
  }

  lemma {:induction false} LatestDistinct(history: seq<int>)
    ensures Distinct(LatestUses(history))
  {
    if history != [] {
      LatestDistinct(history[1..]);
      WithoutDistinct(LatestUses(history[1..]), history[0]);
    }
  }

  /** Whatever stands before k in the list stood there before. */
  lemma {:induction false} WithoutOrder(s: seq<int>, k: int, i: nat, j: nat) returns (p: nat, q: nat)
    requires i < j < |Without(s, k)|
    ensures p < q < |s| && s[p] == Without(s, k)[i] && s[q] == Without(s, k)[j]
  {
    var r := Without(s[1..], k);
    if s[0] == k {
      p, q := WithoutOrder(s[1..], k, i, j);
      p, q := p + 1, q + 1;
    } else if i > 0 {
      p, q := WithoutOrder(s[1..], k, i - 1, j - 1);
      p, q := p + 1, q + 1;
    } else {
      p := 0;
      assert r[j - 1] in r && r[j - 1] in s[1..];
      var l :| 0 <= l < |s[1..]| && s[1..][l] == r[j - 1];
      q := l + 1;
    }
  }

  /** Each key of the history stands in the list once; a key that stands before another one has been
      used at a time since which the other one has not. */
  lemma {:induction false} UsesInOrder(history: seq<int>, i: nat, j: nat) returns (p: nat)
    requires i < j < |LatestUses(history)|
    ensures p < |history| && history[p] == LatestUses(history)[i] && LatestUses(history)[j] !in history[..p + 1]
  {
    var k, more := history[0], LatestUses(history[1..]);
    LatestDistinct(history);
    if i == 0 {
      p := 0;
      assert history[..1] == [k];
    } else {
      LatestDistinct(history[1..]);
      var a, b := WithoutOrder(more, k, i - 1, j - 1);
      p := UsesInOrder(history[1..], a, b);
      assert history[..p + 2] == [k] + history[1..][..p + 1];
      p := p + 1;
    }
  }

  lemma {:induction false} WithoutConcat(a: seq<int>, b: seq<int>, k: int)
    ensures Without(a + b, k) == Without(a, k) + Without(b, k)
  {
    if a == [] {
      assert a + b == b;
    } else {
      assert (a + b)[1..] == a[1..] + b;
      WithoutConcat(a[1..], b, k);
      var front := if a[0] == k then [] else [a[0]];
      assert front + (Without(a[1..], k) + Without(b, k)) == front + Without(a[1..], k) + Without(b, k);
    }
  }

  lemma {:induction false} WithoutLength(s: seq<int>, k: int)
    requires Distinct(s)
    ensures |Without(s, k)| == |s| - if k in s then 1 else 0
  {
    if s != [] {
      assert s[0] !in s[1..];
      WithoutLength(s[1..], k);
      if s[0] == k {
        WithoutDistinct(s[1..], k);
      }
    }
  }

  function Take(s: seq<int>, n: nat): seq<int> {
    if |s| <= n then s else s[..n]
  }

  /** Using a key that is among the first n: it moves to the front. */
  lemma {:induction false} UseHit(d: seq<int>, k: int, n: nat)
    requires Distinct(d) && k in Take(d, n) && 0 < n
    ensures Take([k] + Without(d, k), n) == [k] + Without(Take(d, n), k)
  {
    var a := Take(d, n);
    var b := d[|a|..];
    assert d == a + b;
    WithoutConcat(a, b, k);
    WithoutLength(a, k);
    assert k !in b by {
      var i :| 0 <= i < |a| && a[i] == k;
      assert d[i] == k;
    }
    WithoutDistinct(b, k);
    if |d| > n {
      assert ([k] + (Without(a, k) + b))[..n] == [k] + Without(a, k);
    } else {
      assert b == [];
      assert Without(a, k) + b == Without(a, k);
    }
  }

  /** Using a key that is not: it comes to the front, and the last one drops out when there are n. */
  lemma {:induction false} UseMiss(d: seq<int>, k: int, n: nat)
    requires Distinct(d) && k !in Take(d, n) && 0 < n
    ensures Take([k] + Without(d, k), n) == [k] + Take(Take(d, n), n - 1)
  {
    var a := Take(d, n);
    var b := d[|a|..];
    assert d == a + b;
    WithoutConcat(a, b, k);
    WithoutDistinct(a, k);
    WithoutLength(d, k);
    if |d| > n {
      assert ([k] + (a + Without(b, k)))[..n] == [k] + a[..n - 1];
    } else {
      assert b == [];
      assert Without(d, k) == d;
    }
  }

  ghost predicate Handles(list: seq<Entry>, handle: map<int, int>) {
    forall e :: e in list ==> e.key in handle && handle[e.key] == e.file
  }

  class OpenFiles {
    var list: seq<Entry>      // most recently used first
    var file0: int
    ghost var history: seq<int>
    ghost var handle: map<int, int>  // the file last opened under each number

    /** The list holds exactly the 8 most recently used files, in that order, each with its handle. */
    ghost predicate Valid()
      reads this
    {
      && Keys(list) == Take(LatestUses(history), LIMIT)
      && Handles(list, handle)
    }

    constructor ()
      ensures Valid() && history == [] && file0 == NO_FILE
    {
      list, file0, history, handle := [], NO_FILE, [], map[];
    }

    /** The open file with this number; a hit makes it the most recently used. */
    method Get(key: int) returns (file: int)
      requires Valid()
      modifies this`list, this`history
      ensures Valid()
      ensures key == 0 ==> file == file0 && history == old(history)
      ensures key != 0 && key in old(Keys(list)) ==> key in handle && file == handle[key] && history == [key] + old(history)
      ensures key != 0 && key !in old(Keys(list)) ==> file == NO_FILE && history == old(history)
    {
      if key == 0 { return file0; }
      for i := 0 to |list|
        invariant unchanged(this) && forall k :: 0 <= k < i ==> list[k].key != key
      {
        if list[i].key == key {
          file := list[i].file;
          assert Keys(list)[i] == key;
          LatestDistinct(history);
          UseHit(LatestUses(history), key, LIMIT);
          assert ([key] + history)[1..] == history;
          MovedToFront(list, i);
          list := [list[i]] + list[..i] + list[i + 1..];
          history := [key] + history;
          return;
        }
      }
      file := NO_FILE;
    }

    /** Enter a file that has been opened; when there are 8, the least recently used is closed. The
        list keeps its meaning exactly when no file that stays has this number already. */
    method Add(key: int, file: int)
      requires Valid()
      modifies this
      ensures Valid() <==> key == 0 || key !in Keys(Kept(old(list)))
      ensures key == 0 ==> file0 == file && list == old(list) && history == old(history) && handle == old(handle)
      ensures key != 0 ==> list == [Entry(key, file)] + Kept(old(list)) && file0 == old(file0)
      ensures key != 0 ==> history == [key] + old(history) && handle == old(handle)[key := file]
    {
      if key == 0 {
        file0 := file;
        return;
      }
      var kept := if |list| < LIMIT then list else list[..|list| - 1];
      LatestDistinct(history);
      LatestDistinct([key] + history);
      assert ([key] + history)[1..] == history;
      AddedKeys(list, Entry(key, file));
      AddedKeys(kept, Entry(key, file));
      if key in Keys(kept) {
        NotTwice(key, Keys(kept), LatestUses([key] + history), LIMIT);
      } else {
        UsedAgain(LatestUses(history), key, LIMIT, Keys(kept));
        KeptHandles(kept, key);
      }
      list := [Entry(key, file)] + kept;
      history := [key] + history;
      handle := handle[key := file];
    }
  }

  /** What stays of the list when one more is entered. */
  function Kept(list: seq<Entry>): seq<Entry> {
    if |list| < LIMIT then list else list[..|list| - 1]
  }

  lemma {:induction false} KeptHandles(kept: seq<Entry>, key: int)
    requires key !in Keys(kept)
    ensures forall e :: e in kept ==> e.key != key
  {
    forall e | e in kept ensures e.key != key {
      var i :| 0 <= i < |kept| && kept[i] == e;
      assert Keys(kept)[i] == e.key;
    }
  }

  /** No key is twice among the latest uses. */
  lemma {:induction false} NotTwice(k: int, kept: seq<int>, d: seq<int>, n: nat)
    requires k in kept && Distinct(d)
    ensures [k] + kept != Take(d, n)
  {
    var i :| 0 <= i < |kept| && kept[i] == k;
    var twice := [k] + kept;
    assert twice[0] == twice[i + 1];
    assert Distinct(Take(d, n));
  }

  /** Using a key that is none of the first n - 1. */
  lemma {:induction false} UsedAgain(d: seq<int>, k: int, n: nat, kept: seq<int>)
    requires Distinct(d) && 0 < n && kept == (if |Take(d, n)| < n then Take(d, n) else Take(d, n)[..n - 1]) && k !in kept
    ensures Take([k] + Without(d, k), n) == [k] + kept
  {
    var a := Take(d, n);
    if k in a {
      UseHit(d, k, n);
      assert a == kept + ([k] + []) by {
        assert a == kept + [a[n - 1]];
      }
      WithoutMiddle(kept, k, []);
    } else {
      UseMiss(d, k, n);
    }
  }

  lemma {:induction false} MovedToFront(s: seq<Entry>, i: nat)
    requires i < |s| && Distinct(Keys(s))
    ensures Keys([s[i]] + s[..i] + s[i + 1..]) == [s[i].key] + Without(Keys(s), s[i].key)
  {
    var k := s[i].key;
    var a, b := Keys(s)[..i], Keys(s)[i + 1..];
    Around(Keys(s), i);
    WithoutMiddle(a, k, b);
    assert Keys([s[i]] + s[..i] + s[i + 1..]) == [k] + (a + b);
  }

  lemma {:induction false} Around(ks: seq<int>, i: nat)
    requires i < |ks| && Distinct(ks)
    ensures ks == ks[..i] + ([ks[i]] + ks[i + 1..]) && ks[i] !in ks[..i] && ks[i] !in ks[i + 1..]
  {
  }

  lemma {:induction false} WithoutNone(s: seq<int>, k: int)
    requires k !in s
    ensures Without(s, k) == s
  {
    if s != [] {
      assert s == [s[0]] + s[1..];
      WithoutNone(s[1..], k);
    }
  }

  lemma {:induction false} WithoutMiddle(a: seq<int>, k: int, b: seq<int>)
    requires k !in a && k !in b
    ensures Without(a + ([k] + b), k) == a + b
  {
    var s := a + ([k] + b);
    if a == [] {
      assert s == [k] + b && s[1..] == b;
      WithoutNone(b, k);
    } else {
      assert s[0] == a[0] && s[1..] == a[1..] + ([k] + b);
      WithoutMiddle(a[1..], k, b);
      assert [a[0]] + (a[1..] + b) == a + b;
    }
  }

  lemma {:induction false} AddedKeys(s: seq<Entry>, e: Entry)
    ensures Keys([e] + s) == [e.key] + Keys(s)
    ensures s != [] ==> Keys([e] + s[..|s| - 1]) == [e.key] + Keys(s)[..|s| - 1]
  {
  }
}
