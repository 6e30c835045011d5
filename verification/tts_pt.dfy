/** The text sent to the speech synthesiser for a verb: the infinitive and a
    full stop, then one "<key> <form>.\n" segment per entry of the verb's
    conjugation map.

    The map is a hash map, so the order in which its entries are visited is
    not fixed. It is a parameter here, `order`: any sequence that lists each
    key of the map exactly once. Everything proved below holds for every such
    order, and what does not depend on the order is stated over the multiset
    of segments.
 */
module TtsPt {
  import opened Strings
  import opened Lang
  import opened Seqs

  /** `form` sits in `r` between the key with its space and the closing
      ".\n". */
  predicate Frames(r: string, key: string, form: string) {
    |r| == |key| + |form| + 3 && r[|key| + 1..|r| - 2] == form
  }

  /** The segment one map entry contributes. */
  function Segment(key: string, form: string): (r: string)
    ensures StartsWith(r, key + " ") && EndsWith(r, ".\n")
    ensures Frames(r, key, form)
  {
    key + " " + form + ".\n"
  }

  /** `order` visits every key of `m` exactly once. */
  predicate IsIterationOrder(order: seq<string>, m: map<string, string>) {
    && (forall i :: 0 <= i < |order| ==> order[i] in m)
    && (forall key :: key in m ==> key in order)
    && (forall i, j :: 0 <= i < j < |order| ==> order[i] != order[j])
  }

  /** The segments of the keys in `keys`, in that order. */
  function Segments(keys: seq<string>, m: map<string, string>): (r: seq<string>)
    requires forall i :: 0 <= i < |keys| ==> keys[i] in m
    ensures |r| == |keys|
    ensures forall i :: 0 <= i < |keys| ==> r[i] == Segment(keys[i], m[keys[i]])
  {
    seq(|keys|, i requires 0 <= i < |keys| => Segment(keys[i], m[keys[i]]))
  }

  function Concat(parts: seq<string>): string {
    if |parts| == 0 then "" else parts[0] + Concat(parts[1..])
  }

  lemma {:induction false} ConcatAppend(a: seq<string>, b: seq<string>)
    ensures Concat(a + b) == Concat(a) + Concat(b)
  {
    if |a| == 0 {
      assert a + b == b;
    } else {
      assert (a + b)[1..] == a[1..] + b;
      ConcatAppend(a[1..], b);
    }
  }

  lemma SegmentsAppend(a: seq<string>, b: seq<string>, m: map<string, string>)
    requires forall i :: 0 <= i < |a| ==> a[i] in m
    requires forall i :: 0 <= i < |b| ==> b[i] in m
    ensures Segments(a + b, m) == Segments(a, m) + Segments(b, m)
  {
    var left := Segments(a + b, m);
    var right := Segments(a, m) + Segments(b, m);
    forall i | 0 <= i < |left|
      ensures left[i] == right[i]
    {
      if i < |a| {
        assert (a + b)[i] == a[i];
      } else {
        assert (a + b)[i] == b[i - |a|];
      }
    }
  }

  /** Visiting one more key appends its segment to the text. */
  lemma SpeakOneMore(keys: seq<string>, key: string, m: map<string, string>)
    requires forall i :: 0 <= i < |keys| ==> keys[i] in m
    requires key in m
    ensures Concat(Segments(keys + [key], m)) == Concat(Segments(keys, m)) + Segment(key, m[key])
  {
    var segment := Segment(key, m[key]);
    SegmentsAppend(keys, [key], m);
    assert Segments([key], m) == [segment];
    ConcatAppend(Segments(keys, m), [segment]);
    assert Concat([segment]) == segment + Concat([]);
  }

  /** The text the loop has appended after visiting `keys`, built the way the
      loop builds it: last segment last. */
  function Speech(keys: seq<string>, m: map<string, string>): string
    requires forall i :: 0 <= i < |keys| ==> keys[i] in m
  {
    if |keys| == 0 then ""
    else Speech(keys[..|keys| - 1], m) + Segment(keys[|keys| - 1], m[keys[|keys| - 1]])
  }

  /** Appending segment by segment gives the concatenation of the segments. */
  lemma {:induction false} SpeechSegments(keys: seq<string>, m: map<string, string>)
    requires forall i :: 0 <= i < |keys| ==> keys[i] in m
    ensures Speech(keys, m) == Concat(Segments(keys, m))
    decreases |keys|
  {
    if |keys| > 0 {
      var init := keys[..|keys| - 1];
      SpeechSegments(init, m);
      assert keys == init + [keys[|keys| - 1]];
      SpeakOneMore(init, keys[|keys| - 1], m);
    }
  }

  /** `assemble_text`, visiting the map in the order `order`: the infinitive
      and a full stop, then the segments of the entries in that order. */
  method AssembleText(verb: VerbConjugations, order: seq<string>) returns (text: string)
    requires IsIterationOrder(order, verb.conjugations)
    ensures text == verb.vocabulary.pt + "." + Concat(Segments(order, verb.conjugations))
  {
    text := verb.vocabulary.pt + ".";
    text := AppendSegments(text, order, verb.conjugations);
    SpeechSegments(order, verb.conjugations);
  }

  /** The loop of `assemble_text`: appends the segment of every key of
      `keys`, in order, to `text`. */
  method AppendSegments(start: string, keys: seq<string>, m: map<string, string>) returns (text: string)
    requires forall i :: 0 <= i < |keys| ==> keys[i] in m
    ensures text == start + Speech(keys, m)
  {
    text := start;
    for i := 0 to |keys|
      invariant text == start + Speech(keys[..i], m)
    {
      var key := keys[i];
      var segment := Segment(key, m[key]);
      assert keys[..i + 1][..i] == keys[..i];
      text := text + segment;
    }
    assert keys[..|keys|] == keys;
  }

  // ---------------------------------------------------------------------------
  // Properties of the segments that hold for every visiting order

  /** Two visiting orders of the same map list the same keys, each once. */
  lemma SameKeys(o1: seq<string>, o2: seq<string>, m: map<string, string>)
    requires IsIterationOrder(o1, m) && IsIterationOrder(o2, m)
    ensures multiset(o1) == multiset(o2)
  {
    assert Distinct(o1) && Distinct(o2);
    forall x
      ensures multiset(o1)[x] == multiset(o2)[x]
    {
      DistinctCount(o1, x);
      DistinctCount(o2, x);
    }
  }

  lemma SegmentsRemove(b: seq<string>, i: nat, m: map<string, string>)
    requires i < |b|
    requires forall j :: 0 <= j < |b| ==> b[j] in m
    ensures Segments(b[..i] + b[i + 1..], m) == Segments(b, m)[..i] + Segments(b, m)[i + 1..]
  {
    var left := Segments(b[..i] + b[i + 1..], m);
    var right := Segments(b, m)[..i] + Segments(b, m)[i + 1..];
    forall j | 0 <= j < |left|
      ensures left[j] == right[j]
    {
      if j < i {
        assert (b[..i] + b[i + 1..])[j] == b[j];
      } else {
        assert (b[..i] + b[i + 1..])[j] == b[j + 1];
      }
    }
  }

  /** The first key's segment comes first. */
  lemma SegmentsCons(a: seq<string>, m: map<string, string>)
    requires 0 < |a|
    requires forall i :: 0 <= i < |a| ==> a[i] in m
    ensures Segments(a, m) == [Segment(a[0], m[a[0]])] + Segments(a[1..], m)
  {
    var right := [Segment(a[0], m[a[0]])] + Segments(a[1..], m);
    forall i | 0 <= i < |a|
      ensures Segments(a, m)[i] == right[i]
    {
      if i > 0 {
        assert a[1..][i - 1] == a[i];
      }
    }
  }

  /** Reordering the keys reorders their segments. */
  lemma {:induction false} SegmentsPermute(a: seq<string>, b: seq<string>, m: map<string, string>)
    requires forall i :: 0 <= i < |a| ==> a[i] in m
    requires forall i :: 0 <= i < |b| ==> b[i] in m
    requires multiset(a) == multiset(b)
    ensures multiset(Segments(a, m)) == multiset(Segments(b, m))
  {
    if |a| > 0 {
      var x := a[0];
      assert x in multiset(b);
      var i :| 0 <= i < |b| && b[i] == x;
      var b' := b[..i] + b[i + 1..];
      assert multiset(a[1..]) == multiset(b') by {
        RemoveOne(a, 0);
        assert a[..0] + a[1..] == a[1..];
        RemoveOne(b, i);
      }
      SegmentsPermute(a[1..], b', m);
      var sb := Segments(b, m);
      var seg := Segment(x, m[x]);
      assert multiset(Segments(b', m)) == multiset(sb) - multiset{seg} by {
        SegmentsRemove(b, i, m);
        RemoveOne(sb, i);
      }
      assert multiset(Segments(a, m)) == multiset{seg} + multiset(Segments(a[1..], m)) by {
        SegmentsCons(a, m);
      }
      assert seg in multiset(sb) by {
        assert sb[i] == seg;
      }
      PutBack(multiset(sb), seg);
    }
  }

  /** The segments of two visiting orders are the same multiset, one per
      map entry. */
  lemma OrderIrrelevant(o1: seq<string>, o2: seq<string>, m: map<string, string>)
    requires IsIterationOrder(o1, m) && IsIterationOrder(o2, m)
    ensures multiset(Segments(o1, m)) == multiset(Segments(o2, m))
  {
    SameKeys(o1, o2, m);
    SegmentsPermute(o1, o2, m);
  }

  /** One segment per entry: as many segments as entries, and every entry's
      segment among them. */
  lemma SegmentPerEntry(order: seq<string>, m: map<string, string>)
    requires IsIterationOrder(order, m)
    ensures |Segments(order, m)| == |m|
    ensures forall key :: key in m ==> Segment(key, m[key]) in Segments(order, m)
  {
    KeyCount(order, m);
    forall key | key in m
      ensures Segment(key, m[key]) in Segments(order, m)
    {
      var i :| 0 <= i < |order| && order[i] == key;
      assert Segments(order, m)[i] == Segment(key, m[key]);
    }
  }

  lemma {:induction false} KeyCount(order: seq<string>, m: map<string, string>)
    requires IsIterationOrder(order, m)
    ensures |order| == |m|
    decreases |order|
  {
    if |order| == 0 {
      assert m == map[];
    } else {
      var key := order[0];
      var m' := m - {key};
      assert IsIterationOrder(order[1..], m') by {
        forall i | 0 <= i < |order[1..]|
          ensures order[1..][i] in m'
        {
          assert order[1..][i] == order[i + 1] != order[0];
        }
        forall k | k in m'
          ensures k in order[1..]
        {
          var j :| 0 <= j < |order| && order[j] == k;
          assert j != 0;
          assert order[1..][j - 1] == k;
        }
      }
      KeyCount(order[1..], m');
      assert m.Keys == m'.Keys + {key};
    }
  }

  /** A verb without conjugations is spoken as its infinitive alone. */
  method EmptyMapText(verb: VerbConjugations) returns (text: string)
    requires verb.conjugations == map[]
    ensures text == verb.vocabulary.pt + "."
  {
    text := AssembleText(verb, []);
  }
}
