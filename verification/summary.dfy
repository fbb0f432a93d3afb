/** Summaries of a detection list, shared by the exporter's spreadsheet and the controllers'
    text panels: per-class counts in a Python dict (first-seen order), the same counts sorted
    by class, detail rows derived from each box, and the detail list sorted by confidence. */
module Summary {
  import opened Strings
  import opened Detections

  // ---------------------------------------------------------------------------------------
  // Counting: `class_counts[c] = class_counts.get(c, 0) + 1` over the detections in order.
  // ---------------------------------------------------------------------------------------

  /** One `(class, count)` item of the `class_counts` dict. */
  datatype ClassCount = ClassCount(cls: string, count: nat)

  /** Number of occurrences of `c` in `s`. */
  function Occurrences(s: seq<string>, c: string): nat
  {
    if |s| == 0 then 0 else Occurrences(s[..|s| - 1], c) + (if s[|s| - 1] == c then 1 else 0)
  }

  lemma {:induction false} OccurrencesAbsent(s: seq<string>, c: string)
    requires c !in s
    ensures Occurrences(s, c) == 0
  {
    if |s| > 0 {
      OccurrencesAbsent(s[..|s| - 1], c);
    }
  }

  /** Index of the first occurrence of `c` in `s`. */
  function FirstIndex(s: seq<string>, c: string): (k: nat)
    requires c in s
    ensures k < |s| && s[k] == c
    ensures forall j :: 0 <= j < k ==> s[j] != c
  {
    if s[0] == c then 0 else 1 + FirstIndex(s[1..], c)
  }

  predicate DistinctKeys(acc: seq<ClassCount>) {
    forall i, j :: 0 <= i < j < |acc| ==> acc[i].cls != acc[j].cls
  }

  /** Position of key `c` in the dict items, or -1 (the dict's `in` test). */
  function KeyIndex(acc: seq<ClassCount>, c: string): (k: int)
    ensures -1 <= k < |acc|
    ensures k >= 0 ==> acc[k].cls == c
    ensures k == -1 ==> forall i :: 0 <= i < |acc| ==> acc[i].cls != c
  {
    if |acc| == 0 then -1
    else if acc[|acc| - 1].cls == c then |acc| - 1
    else KeyIndex(acc[..|acc| - 1], c)
  }

  /** One loop step: bump the count of `c` in place, or append `(c, 1)` as a new last key. */
  function Bump(acc: seq<ClassCount>, c: string): seq<ClassCount>
  {
    var k := KeyIndex(acc, c);
    if k >= 0 then acc[k := ClassCount(c, acc[k].count + 1)] else acc + [ClassCount(c, 1)]
  }

  /** The distinct classes of a class list. */
  function SetOf(classes: seq<string>): set<string>
  {
    set c | c in classes
  }

  /** The set of keys of the dict items. */
  function KeySet(acc: seq<ClassCount>): set<string>
  {
    set i | 0 <= i < |acc| :: acc[i].cls
  }

  /** `acc` is the dict that counting `classes` produces: distinct keys, exactly the classes
      seen, each with its number of occurrences. */
  ghost predicate CountsOf(acc: seq<ClassCount>, classes: seq<string>) {
    && DistinctKeys(acc)
    && KeySet(acc) == SetOf(classes)
    && forall i :: 0 <= i < |acc| ==> acc[i].count == Occurrences(classes, acc[i].cls)
  }

  lemma BumpCounts(acc: seq<ClassCount>, prefix: seq<string>, c: string)
    requires CountsOf(acc, prefix)
    ensures CountsOf(Bump(acc, c), prefix + [c])
  {
    var s := prefix + [c];
    assert s[..|s| - 1] == prefix;
    var r := Bump(acc, c);
    var k := KeyIndex(acc, c);
    if k >= 0 {
      assert r == acc[k := ClassCount(c, acc[k].count + 1)];
      assert c in prefix by {
        assert c in KeySet(acc);
      }
      assert SetOf(s) == SetOf(prefix);
      assert DistinctKeys(r) by {
        forall i, j | 0 <= i < j < |r| ensures r[i].cls != r[j].cls {
          assert r[i].cls == acc[i].cls && r[j].cls == acc[j].cls;
        }
      }
      forall i | 0 <= i < |r|
        ensures r[i].count == Occurrences(s, r[i].cls)
      {
        assert Occurrences(s, r[i].cls) == Occurrences(prefix, r[i].cls) + (if c == r[i].cls then 1 else 0);
        assert acc[i].count == Occurrences(prefix, acc[i].cls);
        if i != k {
          assert r[i] == acc[i];
          assert acc[i].cls != acc[k].cls;
        } else {
          assert r[i] == ClassCount(c, acc[k].count + 1);
        }
      }
      assert KeySet(r) == KeySet(acc) by {
        forall x | x in KeySet(acc) ensures x in KeySet(r) {
          var i :| 0 <= i < |acc| && acc[i].cls == x;
          assert r[i].cls == x;
        }
      }
    } else {
      assert r == acc + [ClassCount(c, 1)];
      assert c !in KeySet(acc);
      assert c in prefix ==> c in SetOf(prefix);
      assert c !in prefix;
      assert SetOf(s) == SetOf(prefix) + {c};
      OccurrencesAbsent(prefix, c);
      forall i | 0 <= i < |r|
        ensures r[i].count == Occurrences(s, r[i].cls)
      {
        assert Occurrences(s, r[i].cls) == Occurrences(prefix, r[i].cls) + (if c == r[i].cls then 1 else 0);
        if i < |acc| {
          assert r[i] == acc[i];
          assert acc[i].count == Occurrences(prefix, acc[i].cls);
        } else {
          assert r[i] == ClassCount(c, 1);
        }
      }
      assert KeySet(r) == KeySet(acc) + {c} by {
        forall x | x in KeySet(acc) ensures x in KeySet(r) {
          var i :| 0 <= i < |acc| && acc[i].cls == x;
          assert r[i].cls == x;
        }
        assert r[|acc|].cls == c;
      }
    }
  }

  lemma KeysAreClasses(r: seq<ClassCount>, classes: seq<string>)
    requires KeySet(r) == SetOf(classes)
    ensures forall i :: 0 <= i < |r| ==> r[i].cls in classes
  {
    forall i | 0 <= i < |r| ensures r[i].cls in classes {
      assert r[i].cls in KeySet(r);
      assert r[i].cls in SetOf(classes);
    }
  }

  /** The `class_counts` dict after the loop over `classes`, as its list of items. */
  function Tally(classes: seq<string>): (r: seq<ClassCount>)
    ensures DistinctKeys(r)
    ensures KeySet(r) == SetOf(classes)
    ensures forall i :: 0 <= i < |r| ==> r[i].cls in classes
    ensures forall i :: 0 <= i < |r| ==> r[i].count == Occurrences(classes, r[i].cls)
  {
    if |classes| == 0 then []
    else
      var prefix := classes[..|classes| - 1];
      var c := classes[|classes| - 1];
      var acc := Tally(prefix);
      BumpCounts(acc, prefix, c);
      assert prefix + [c] == classes;
      KeysAreClasses(Bump(acc, c), classes);
      Bump(acc, c)
  }

  /** The class summary of a detection list: `class_counts.items()`. */
  function ClassCounts(dets: seq<Detection>): seq<ClassCount>
  {
    Tally(ClassesOf(dets))
  }

  function SumCounts(s: seq<ClassCount>): nat
  {
    if |s| == 0 then 0 else s[0].count + SumCounts(s[1..])
  }

  lemma {:induction false} SumCountsAppend(s: seq<ClassCount>, x: ClassCount)
    ensures SumCounts(s + [x]) == SumCounts(s) + x.count
  {
    if |s| > 0 {
      assert (s + [x])[1..] == s[1..] + [x];
      SumCountsAppend(s[1..], x);
    }
  }

  lemma {:induction false} SumCountsUpdate(s: seq<ClassCount>, k: nat, v: ClassCount)
    requires k < |s|
    ensures SumCounts(s[k := v]) + s[k].count == SumCounts(s) + v.count
  {
    if k > 0 {
      assert s[k := v][1..] == s[1..][k - 1 := v];
      SumCountsUpdate(s[1..], k - 1, v);
    }
  }

  /** The per-class counts add up to the number of detections counted. */
  lemma {:induction false} TallySum(classes: seq<string>)
    ensures SumCounts(Tally(classes)) == |classes|
  {
    if |classes| > 0 {
      var prefix := classes[..|classes| - 1];
      var c := classes[|classes| - 1];
      var acc := Tally(prefix);
      TallySum(prefix);
      var k := KeyIndex(acc, c);
      if k >= 0 {
        SumCountsUpdate(acc, k, ClassCount(c, acc[k].count + 1));
      } else {
        SumCountsAppend(acc, ClassCount(c, 1));
      }
    }
  }

  /** Keys appear in the order in which their class is first seen among the detections. */
  lemma {:induction false} TallyFirstSeenOrder(classes: seq<string>)
    ensures forall i, j :: 0 <= i < j < |Tally(classes)| ==>
              FirstIndex(classes, Tally(classes)[i].cls) < FirstIndex(classes, Tally(classes)[j].cls)
  {
    if |classes| > 0 {
      var prefix := classes[..|classes| - 1];
      var c := classes[|classes| - 1];
      assert classes == prefix + [c];
      TallyFirstSeenOrder(prefix);
      var acc := Tally(prefix);
      forall i | 0 <= i < |acc|
        ensures FirstIndex(classes, acc[i].cls) == FirstIndex(prefix, acc[i].cls)
      {
        FirstIndexExtend(prefix, c, acc[i].cls);
      }
      if KeyIndex(acc, c) >= 0 {
        BumpExistingKeepsOrder(acc, classes, c);
      } else {
        BumpNewKeepsOrder(acc, prefix, c);
      }
    }
  }

  /** Appending an element does not move the first occurrence of a key already present. */
  lemma {:induction false} FirstIndexExtend(prefix: seq<string>, c: string, key: string)
    requires key in prefix
    ensures FirstIndex(prefix + [c], key) == FirstIndex(prefix, key)
  {
    var s := prefix + [c];
    var a, b := FirstIndex(s, key), FirstIndex(prefix, key);
    assert s[b] == key;
    assert prefix[a] == key;
  }

  /** Bumping an existing key keeps every key in its place. */
  lemma BumpExistingKeepsOrder(acc: seq<ClassCount>, classes: seq<string>, c: string)
    requires KeyIndex(acc, c) >= 0
    requires forall i :: 0 <= i < |acc| ==> acc[i].cls in classes
    requires forall i, j :: 0 <= i < j < |acc| ==> FirstIndex(classes, acc[i].cls) < FirstIndex(classes, acc[j].cls)
    ensures forall i :: 0 <= i < |Bump(acc, c)| ==> Bump(acc, c)[i].cls in classes
    ensures forall i, j :: 0 <= i < j < |Bump(acc, c)| ==>
              FirstIndex(classes, Bump(acc, c)[i].cls) < FirstIndex(classes, Bump(acc, c)[j].cls)
  {
    var r := Bump(acc, c);
    assert |r| == |acc| && forall i :: 0 <= i < |r| ==> r[i].cls == acc[i].cls;
  }

  /** Appending a key not seen before puts it last, after every earlier key. */
  lemma BumpNewKeepsOrder(acc: seq<ClassCount>, prefix: seq<string>, c: string)
    requires KeyIndex(acc, c) < 0 && KeySet(acc) == SetOf(prefix)
    requires forall i :: 0 <= i < |acc| ==> acc[i].cls in prefix
    requires forall i :: 0 <= i < |acc| ==> FirstIndex(prefix + [c], acc[i].cls) == FirstIndex(prefix, acc[i].cls)
    requires forall i, j :: 0 <= i < j < |acc| ==> FirstIndex(prefix, acc[i].cls) < FirstIndex(prefix, acc[j].cls)
    ensures forall i, j :: 0 <= i < j < |Bump(acc, c)| ==>
              FirstIndex(prefix + [c], Bump(acc, c)[i].cls) < FirstIndex(prefix + [c], Bump(acc, c)[j].cls)
  {
    var r := Bump(acc, c);
    var classes := prefix + [c];
    assert c !in KeySet(acc);
    assert c !in SetOf(prefix);
    assert c !in prefix;
    assert FirstIndex(classes, c) == |prefix| by {
      assert classes[|prefix|] == c;
      assert forall j :: 0 <= j < |prefix| ==> classes[j] == prefix[j];
    }
    assert r == acc + [ClassCount(c, 1)];
    forall i, j | 0 <= i < j < |r|
      ensures FirstIndex(classes, r[i].cls) < FirstIndex(classes, r[j].cls)
    {
      assert r[i] == acc[i];
      if j < |acc| {
        assert r[j] == acc[j];
      }
    }
  }

  /** Summary of a whole detection list: distinct classes, each counted exactly, in first-seen
      order, with counts adding up to the number of detections. */
  lemma ClassCountsSummary(dets: seq<Detection>)
    ensures DistinctKeys(ClassCounts(dets))
    ensures forall i :: 0 <= i < |ClassCounts(dets)| ==>
              ClassCounts(dets)[i].count == Occurrences(ClassesOf(dets), ClassCounts(dets)[i].cls) > 0
    ensures KeySet(ClassCounts(dets)) == SetOf(ClassesOf(dets))
    ensures SumCounts(ClassCounts(dets)) == |dets|
    ensures forall i, j :: 0 <= i < j < |ClassCounts(dets)| ==>
              FirstIndex(ClassesOf(dets), ClassCounts(dets)[i].cls) < FirstIndex(ClassesOf(dets), ClassCounts(dets)[j].cls)
  {
    var cs := ClassesOf(dets);
    var r := Tally(cs);
    TallySum(cs);
    TallyFirstSeenOrder(cs);
    forall i | 0 <= i < |r|
      ensures Occurrences(cs, r[i].cls) > 0
    {
      OccurrencesPositive(cs, r[i].cls);
    }
  }

  lemma {:induction false} OccurrencesPositive(s: seq<string>, c: string)
    requires c in s
    ensures Occurrences(s, c) > 0
  {
    if s[|s| - 1] != c {
      assert c in s[..|s| - 1];
      OccurrencesPositive(s[..|s| - 1], c);
    }
  }

  // ---------------------------------------------------------------------------------------
  // Sorting by a string key: Python's stable `sorted` with `<` on `str`.
  // ---------------------------------------------------------------------------------------

  predicate SortedByKey<T>(s: seq<T>, key: T -> string) {
    forall i, j :: 0 <= i < j < |s| ==> !Less(key(s[j]), key(s[i]))
  }

  /** Insert `x` before the first element whose key is not smaller than its own. */
  function InsertByKey<T>(x: T, s: seq<T>, key: T -> string): (r: seq<T>)
    ensures multiset(r) == multiset(s) + multiset{x}
    ensures |r| == |s| + 1
  {
    if |s| == 0 then [x]
    else
      assert s == [s[0]] + s[1..];
      if Less(key(s[0]), key(x)) then [s[0]] + InsertByKey(x, s[1..], key) else [x] + s
  }

  lemma {:induction false} InsertByKeySorted<T>(x: T, s: seq<T>, key: T -> string)
    requires SortedByKey(s, key)
    ensures SortedByKey(InsertByKey(x, s, key), key)
  {
    var r := InsertByKey(x, s, key);
    if |s| == 0 {
    } else if Less(key(s[0]), key(x)) {
      InsertByKeySorted(x, s[1..], key);
      var t := InsertByKey(x, s[1..], key);
      assert r == [s[0]] + t;
      forall j | 0 < j < |r|
        ensures !Less(key(r[j]), key(s[0]))
      {
        assert r[j] in multiset(t);
        if r[j] == x {
          if Less(key(x), key(s[0])) {
            LessTransitive(key(x), key(s[0]), key(x));
            LessIrreflexive(key(x));
          }
        } else {
          assert r[j] in multiset(s[1..]);
          var m :| 0 <= m < |s[1..]| && s[1..][m] == r[j];
          assert s[m + 1] == r[j];
        }
      }
    } else {
      assert r == [x] + s;
      forall j | 0 <= j < |s|
        ensures !Less(key(s[j]), key(x))
      {
        if Less(key(s[j]), key(x)) {
          LessTotal(key(s[0]), key(x));
          if j > 0 {
            assert !Less(key(s[j]), key(s[0]));
            if key(s[0]) != key(x) {
              LessTransitive(key(s[j]), key(x), key(s[0]));
            }
          }
        }
      }
    }
  }

  /** Python's `sorted(s, key=key)` (stable insertion sort). */
  function SortByKey<T>(s: seq<T>, key: T -> string): (r: seq<T>)
    ensures multiset(r) == multiset(s)
    ensures |r| == |s|
  {
    if |s| == 0 then []
    else
      assert s == [s[0]] + s[1..];
      InsertByKey(s[0], SortByKey(s[1..], key), key)
  }

  /** Sorting yields an ascending permutation of its input. */
  lemma {:induction false} SortByKeySorted<T>(s: seq<T>, key: T -> string)
    ensures SortedByKey(SortByKey(s, key), key)
    ensures multiset(SortByKey(s, key)) == multiset(s)
  {
    if |s| > 0 {
      SortByKeySorted(s[1..], key);
      InsertByKeySorted(s[0], SortByKey(s[1..], key), key);
    }
  }

  function ClassKey(c: ClassCount): string { c.cls }

  /** `sorted(class_counts.items())`: the keys are distinct, so this orders the items by class. */
  function SortedClassCounts(dets: seq<Detection>): seq<ClassCount>
  {
    SortByKey(ClassCounts(dets), ClassKey)
  }

  lemma {:induction false} SumCountsInsert(x: ClassCount, s: seq<ClassCount>)
    ensures SumCounts(InsertByKey(x, s, ClassKey)) == x.count + SumCounts(s)
  {
    if |s| > 0 && Less(s[0].cls, x.cls) {
      SumCountsInsert(x, s[1..]);
      assert InsertByKey(x, s, ClassKey)[1..] == InsertByKey(x, s[1..], ClassKey);
    }
  }

  lemma {:induction false} SumCountsSorted(s: seq<ClassCount>)
    ensures SumCounts(SortByKey(s, ClassKey)) == SumCounts(s)
  {
    if |s| > 0 {
      SumCountsSorted(s[1..]);
      SumCountsInsert(s[0], SortByKey(s[1..], ClassKey));
    }
  }

  /** The sorted class listing keeps every class with its count: ascending by class, the same
      items as the first-seen dict, adding up to the number of detections. */
  lemma SortedClassCountsSummary(dets: seq<Detection>)
    ensures SortedByKey(SortedClassCounts(dets), ClassKey)
    ensures multiset(SortedClassCounts(dets)) == multiset(ClassCounts(dets))
    ensures SumCounts(SortedClassCounts(dets)) == |dets|
  {
    SortByKeySorted(ClassCounts(dets), ClassKey);
    ClassCountsSummary(dets);
    SumCountsSorted(ClassCounts(dets));
  }

  // ---------------------------------------------------------------------------------------
  // Sorting by confidence, descending: `sorted(dets, key=conf, reverse=True)` (stable).
  // ---------------------------------------------------------------------------------------

  predicate ConfidenceDescending(s: seq<Detection>) {
    forall i, j :: 0 <= i < j < |s| ==> s[i].confidence >= s[j].confidence
  }

  /** The detections with confidence exactly `c`, in order. */
  function WithConfidence(s: seq<Detection>, c: real): seq<Detection>
  {
    if |s| == 0 then []
    else (if s[0].confidence == c then [s[0]] else []) + WithConfidence(s[1..], c)
  }

  /** Insert `x` before the first element whose confidence is not larger. */
  function InsertByConfidence(x: Detection, s: seq<Detection>): (r: seq<Detection>)
    ensures multiset(r) == multiset(s) + multiset{x}
    ensures |r| == |s| + 1
  {
    if |s| == 0 then [x]
    else
      assert s == [s[0]] + s[1..];
      if s[0].confidence > x.confidence then [s[0]] + InsertByConfidence(x, s[1..]) else [x] + s
  }

  lemma {:induction false} InsertByConfidenceSorted(x: Detection, s: seq<Detection>)
    requires ConfidenceDescending(s)
    ensures ConfidenceDescending(InsertByConfidence(x, s))
  {
    var r := InsertByConfidence(x, s);
    if |s| > 0 && s[0].confidence > x.confidence {
      var t := InsertByConfidence(x, s[1..]);
      InsertByConfidenceSorted(x, s[1..]);
      assert r == [s[0]] + t;
      forall j | 0 < j < |r|
        ensures r[0].confidence >= r[j].confidence
      {
        assert r[j] == t[j - 1];
        assert r[j] in multiset(t);
        if r[j] != x {
          assert r[j] in multiset(s[1..]);
          var m :| 0 <= m < |s[1..]| && s[1..][m] == r[j];
          assert s[m + 1] == r[j];
        }
      }
    }
  }

  lemma {:induction false} InsertByConfidenceStable(x: Detection, s: seq<Detection>, c: real)
    ensures WithConfidence(InsertByConfidence(x, s), c)
            == (if x.confidence == c then [x] else []) + WithConfidence(s, c)
  {
    var r := InsertByConfidence(x, s);
    if |s| == 0 {
      assert r == [x];
      assert r[1..] == [];
    } else if s[0].confidence > x.confidence {
      var t := InsertByConfidence(x, s[1..]);
      InsertByConfidenceStable(x, s[1..], c);
      assert r == [s[0]] + t;
      assert r[1..] == t;
    } else {
      assert r == [x] + s;
      assert r[1..] == s;
    }
  }

  /** `sorted(dets, key=lambda d: d['confidence'], reverse=True)`. */
  function SortByConfidence(s: seq<Detection>): (r: seq<Detection>)
    ensures multiset(r) == multiset(s)
    ensures |r| == |s|
  {
    if |s| == 0 then []
    else
      assert s == [s[0]] + s[1..];
      InsertByConfidence(s[0], SortByConfidence(s[1..]))
  }

  /** The confidence sort is a descending permutation and it is stable: detections of equal
      confidence keep their original relative order. */
  lemma {:induction false} SortByConfidenceCorrect(s: seq<Detection>)
    ensures ConfidenceDescending(SortByConfidence(s))
    ensures multiset(SortByConfidence(s)) == multiset(s)
    ensures forall c :: WithConfidence(SortByConfidence(s), c) == WithConfidence(s, c)
  {
    if |s| > 0 {
      SortByConfidenceCorrect(s[1..]);
      forall c
        ensures WithConfidence(SortByConfidence(s), c) == WithConfidence(s, c)
      {
        InsertByConfidenceStable(s[0], SortByConfidence(s[1..]), c);
      }
      InsertByConfidenceSorted(s[0], SortByConfidence(s[1..]));
    }
  }

  // ---------------------------------------------------------------------------------------
  // Detail rows of the "Detection Details" sheet.
  // ---------------------------------------------------------------------------------------

  datatype DetailRow = DetailRow(cls: string, confidence: real,
                                 top: int, left: int, bottom: int, right: int,
                                 width: int, height: int)

  /** `top, left = bbox[1], bbox[0]; bottom, right = bbox[3], bbox[2]`, extents as differences. */
  function RowOf(d: Detection): DetailRow
  {
    var b := d.bbox;
    DetailRow(d.cls, d.confidence, b.y1, b.x1, b.y2, b.x2, b.x2 - b.x1, b.y2 - b.y1)
  }

  function DetailRows(dets: seq<Detection>): (r: seq<DetailRow>)
    ensures |r| == |dets|
    ensures forall i :: 0 <= i < |dets| ==> r[i] == RowOf(dets[i])
  {
    if |dets| == 0 then [] else [RowOf(dets[0])] + DetailRows(dets[1..])
  }

  /** Reading a box back from a detail row. */
  function BoxOfRow(row: DetailRow): BBox
  {
    BBox(row.left, row.top, row.right, row.bottom)
  }

  /** Each detail row is the detection's own data, one per detection and in order: the box reads
      back unchanged from top/left/bottom/right, and width/height are the box's extents. */
  lemma DetailRowsFaithful(dets: seq<Detection>)
    ensures |DetailRows(dets)| == |dets|
    ensures forall i :: 0 <= i < |dets| ==>
              var row := DetailRows(dets)[i];
              && BoxOfRow(row) == dets[i].bbox
              && row.cls == dets[i].cls && row.confidence == dets[i].confidence
              && row.width == row.right - row.left && row.height == row.bottom - row.top
  {
  }

  // ---------------------------------------------------------------------------------------
  // Numbered detail listing: `enumerate(dets, 1)`.
  // ---------------------------------------------------------------------------------------

  datatype Numbered = Numbered(index: nat, det: Detection)

  function Enumerate(dets: seq<Detection>, start: nat): (r: seq<Numbered>)
    ensures |r| == |dets|
    ensures forall i :: 0 <= i < |dets| ==> r[i] == Numbered(start + i, dets[i])
  {
    if |dets| == 0 then [] else [Numbered(start, dets[0])] + Enumerate(dets[1..], start + 1)
  }
}
