/** The timeline projector (components/Timeline.tsx:12-24): the DATE
    entities, each with a sort key and a display date, in stable ascending
    order of the key. `Date.parse` is the parameter `parse`; `None` stands for
    its NaN result. */
module Timeline {
  import opened Types

  /** An entity as shown on the timeline: the entity itself, unchanged, plus
      `_time` and `_displayDate` (components/Timeline.tsx:22). */
  datatype TimelineItem = TimelineItem(entity: Entity, time: int, displayDate: string)

  /** `normalizedDate || name` (components/Timeline.tsx:17). */
  function DisplayDate(e: Entity): string
  {
    if Truthy(e.normalizedDate) then e.normalizedDate.value else e.name
  }

  /** The `map` callback (components/Timeline.tsx:14-23): the parsed instant,
      or 0 when parsing fails. */
  function Annotate(e: Entity, parse: string -> Option<int>): (r: TimelineItem)
    ensures r.entity == e
    ensures Truthy(e.normalizedDate) ==> r.displayDate == e.normalizedDate.value
    ensures !Truthy(e.normalizedDate) ==> r.displayDate == e.name
    ensures parse(r.displayDate).Some? ==> r.time == parse(r.displayDate).value
    ensures parse(r.displayDate).None? ==> r.time == 0
  {
    var shown := DisplayDate(e);
    TimelineItem(e, match parse(shown) case Some(t) => t case None => 0, shown)
  }

  /** `filter(e => e.type === EntityType.DATE)` (components/Timeline.tsx:13). */
  function DateEntities(es: seq<Entity>): (r: seq<Entity>)
    ensures forall e :: e in r <==> e in es && e.category == Date
    ensures multiset(r) <= multiset(es)
  {
    if es == [] then []
    else
      assert es == [es[0]] + es[1..];
      (if es[0].category == Date then [es[0]] else []) + DateEntities(es[1..])
  }

  function AnnotateAll(es: seq<Entity>, parse: string -> Option<int>): (r: seq<TimelineItem>)
    ensures |r| == |es| && forall k :: 0 <= k < |es| ==> r[k] == Annotate(es[k], parse)
  {
    seq(|es|, k requires 0 <= k < |es| => Annotate(es[k], parse))
  }

  /** Ascending by sort key. */
  predicate Sorted(s: seq<TimelineItem>)
  {
    forall i, j :: 0 <= i < j < |s| ==> s[i].time <= s[j].time
  }

  /** The items with sort key `t`, in their order in `s`. A sort is stable
      when it keeps these subsequences. */
  function WithTime(s: seq<TimelineItem>, t: int): (r: seq<TimelineItem>)
    ensures forall x :: x in r <==> x in s && x.time == t
  {
    if s == [] then []
    else
      assert s == [s[0]] + s[1..];
      (if s[0].time == t then [s[0]] else []) + WithTime(s[1..], t)
  }

  /** Inserts `x` before the first item whose key is not smaller. */
  function Insert(x: TimelineItem, s: seq<TimelineItem>): (r: seq<TimelineItem>)
    ensures multiset(r) == multiset(s) + multiset{x}
    ensures Sorted(s) ==> Sorted(r)
  {
    if s == [] || x.time <= s[0].time then [x] + s
    else
      assert s == [s[0]] + s[1..];
      var rest := Insert(x, s[1..]);
      assert Sorted(s) ==> Sorted([s[0]] + rest) by {
        if Sorted(s) {
          forall j | 0 <= j < |rest| ensures s[0].time <= rest[j].time {
            assert rest[j] in multiset(rest);
            if rest[j] != x {
              assert rest[j] in multiset(s[1..]);
              var m :| 0 <= m < |s[1..]| && s[1..][m] == rest[j];
              assert s[m + 1] == rest[j];
            }
          }
        }
      }
      [s[0]] + rest
  }

  /** A stable ascending sort by key (insertion sort). */
  function SortByTime(s: seq<TimelineItem>): (r: seq<TimelineItem>)
    ensures multiset(r) == multiset(s)
    ensures Sorted(r)
  {
    if s == [] then []
    else
      assert s == [s[0]] + s[1..];
      Insert(s[0], SortByTime(s[1..]))
  }

  /** The whole `dateEntities` chain (components/Timeline.tsx:12-24). */
  function DateTimeline(es: seq<Entity>, parse: string -> Option<int>): seq<TimelineItem>
  {
    SortByTime(AnnotateAll(DateEntities(es), parse))
  }

  lemma {:induction false} InsertWithTime(x: TimelineItem, s: seq<TimelineItem>, t: int)
    ensures WithTime(Insert(x, s), t) == (if x.time == t then [x] else []) + WithTime(s, t)
  {
    if s == [] || x.time <= s[0].time {
      assert ([x] + s)[0] == x && ([x] + s)[1..] == s;
    } else {
      var rest := Insert(x, s[1..]);
      InsertWithTime(x, s[1..], t);
      assert Insert(x, s) == [s[0]] + rest;
      assert ([s[0]] + rest)[0] == s[0] && ([s[0]] + rest)[1..] == rest;
      var hx := if x.time == t then [x] else [];
      var h0 := if s[0].time == t then [s[0]] else [];
      assert WithTime(Insert(x, s), t) == h0 + (hx + WithTime(s[1..], t));
      assert WithTime(s, t) == h0 + WithTime(s[1..], t);
      assert h0 == [] || hx == [];
    }
  }

  /** The sort is stable: items of equal key keep their input order. */
  lemma {:induction false} SortByTimeStable(s: seq<TimelineItem>, t: int)
    ensures WithTime(SortByTime(s), t) == WithTime(s, t)
  {
    if s != [] {
      SortByTimeStable(s[1..], t);
      InsertWithTime(s[0], SortByTime(s[1..]), t);
    }
  }

  /** A sorted sequence is determined by its per-key subsequences, so every
      stable ascending sort (as `Array.prototype.sort` is) gives the same order. */
  lemma {:induction false} StableSortUnique(a: seq<TimelineItem>, b: seq<TimelineItem>)
    requires Sorted(a) && Sorted(b)
    requires forall t :: WithTime(a, t) == WithTime(b, t)
    ensures a == b
    decreases |a|
  {
    SameKeysBothEmpty(a, b);
    if a != [] {
      SameKeysSameHead(a, b);
      forall t ensures WithTime(a[1..], t) == WithTime(b[1..], t) {
        var h := if a[0].time == t then [a[0]] else [];
        assert WithTime(a, t) == h + WithTime(a[1..], t);
        assert WithTime(b, t) == h + WithTime(b[1..], t);
        assert WithTime(a[1..], t) == (h + WithTime(a[1..], t))[|h|..];
        assert WithTime(b[1..], t) == (h + WithTime(b[1..], t))[|h|..];
      }
      StableSortUnique(a[1..], b[1..]);
      assert a == [a[0]] + a[1..] && b == [b[0]] + b[1..];
    }
  }

  lemma SameKeysBothEmpty(a: seq<TimelineItem>, b: seq<TimelineItem>)
    requires forall t :: WithTime(a, t) == WithTime(b, t)
    ensures a == [] <==> b == []
  {
    if a != [] {
      assert a[0] in WithTime(a, a[0].time);
      assert WithTime(b, a[0].time) != [];
    }
    if b != [] {
      assert b[0] in WithTime(b, b[0].time);
      assert WithTime(a, b[0].time) != [];
    }
  }

  /** Two sorted sequences with the same per-key subsequences start alike. */
  lemma SameKeysSameHead(a: seq<TimelineItem>, b: seq<TimelineItem>)
    requires a != [] && b != [] && Sorted(a) && Sorted(b)
    requires forall t :: WithTime(a, t) == WithTime(b, t)
    ensures a[0] == b[0]
  {
    var ka, kb := a[0].time, b[0].time;
    assert a[0] in WithTime(a, ka);
    assert a[0] in WithTime(b, ka);
    var m :| 0 <= m < |b| && b[m] == a[0];
    assert kb <= ka;
    assert b[0] in WithTime(b, kb);
    assert b[0] in WithTime(a, kb);
    var n :| 0 <= n < |a| && a[n] == b[0];
    assert ka <= kb;
    assert WithTime(a, ka)[0] == a[0];
    assert WithTime(b, ka)[0] == b[0];
  }

  /** The timeline holds exactly the DATE entities, each as often as in the
      store, each item annotated from its own entity, sorted ascending and
      stable on ties; and it is the only sequence with these properties. */
  lemma DateTimelineSpec(es: seq<Entity>, parse: string -> Option<int>)
    ensures var r := DateTimeline(es, parse);
      var s := AnnotateAll(DateEntities(es), parse);
      && multiset(r) == multiset(s)
      && Sorted(r)
      && (forall t :: WithTime(r, t) == WithTime(s, t))
      && (forall k :: 0 <= k < |r| ==>
            r[k] == Annotate(r[k].entity, parse) && r[k].entity in es && r[k].entity.category == Date)
  {
    var r := DateTimeline(es, parse);
    var s := AnnotateAll(DateEntities(es), parse);
    forall t ensures WithTime(r, t) == WithTime(s, t) {
      SortByTimeStable(s, t);
    }
    forall k | 0 <= k < |r|
      ensures r[k] == Annotate(r[k].entity, parse) && r[k].entity in es && r[k].entity.category == Date
    {
      assert r[k] in multiset(s);
      var j :| 0 <= j < |s| && s[j] == r[k];
      assert DateEntities(es)[j] in DateEntities(es);
    }
  }

  /** Any stable ascending order of the annotated DATE entities is the timeline. */
  lemma TimelineIsTheStableSort(es: seq<Entity>, parse: string -> Option<int>, r: seq<TimelineItem>)
    requires Sorted(r)
    requires forall t :: WithTime(r, t) == WithTime(AnnotateAll(DateEntities(es), parse), t)
    ensures r == DateTimeline(es, parse)
  {
    var s := AnnotateAll(DateEntities(es), parse);
    forall t ensures WithTime(r, t) == WithTime(SortByTime(s), t) {
      SortByTimeStable(s, t);
    }
    StableSortUnique(r, SortByTime(s));
  }

  /** Unparsable dates share key 0: they come after every pre-1970 (negative)
      key and before every positive one. */
  lemma UnparsableBetween(es: seq<Entity>, parse: string -> Option<int>)
    ensures var r := DateTimeline(es, parse);
      forall i, j :: 0 <= i < |r| && 0 <= j < |r| && parse(r[j].displayDate).None? ==>
        (r[i].time < 0 ==> i < j) && (r[i].time > 0 ==> j < i)
  {
    DateTimelineSpec(es, parse);
  }

  /** Two dated entities (a later and an earlier positive instant) and one
      whose text does not parse come out as [unparsable, earlier, later]. */
  lemma ThreeDatesScenario(later: Entity, earlier: Entity, vague: Entity, parse: string -> Option<int>, a: int, b: int)
    requires later.category == Date && earlier.category == Date && vague.category == Date
    requires Truthy(later.normalizedDate) && Truthy(earlier.normalizedDate) && vague.normalizedDate == None
    requires parse(later.normalizedDate.value) == Some(a) && parse(earlier.normalizedDate.value) == Some(b)
    requires parse(vague.name) == None
    requires 0 < b < a
    ensures DateTimeline([later, earlier, vague], parse)
         == [Annotate(vague, parse), Annotate(earlier, parse), Annotate(later, parse)]
  {
    var es := [later, earlier, vague];
    var l, e, v := Annotate(later, parse), Annotate(earlier, parse), Annotate(vague, parse);
    assert l.displayDate == later.normalizedDate.value && l.time == a;
    assert e.displayDate == earlier.normalizedDate.value && e.time == b;
    assert v.displayDate == vague.name && v.time == 0;
    DateEntitiesOfDates(es);
    var s := AnnotateAll(es, parse);
    assert s[0] == l && s[1] == e && s[2] == v;
    assert s == [l, e, v];
    SortThree(l, e, v);
  }

  lemma SortThree(l: TimelineItem, e: TimelineItem, v: TimelineItem)
    requires v.time < e.time < l.time
    ensures SortByTime([l, e, v]) == [v, e, l]
  {
    SortTwo(e, v);
    InsertPastTwo(l, v, e);
    assert [l, e, v][1..] == [e, v];
  }

  lemma SortTwo(e: TimelineItem, v: TimelineItem)
    requires v.time < e.time
    ensures SortByTime([e, v]) == [v, e]
  {
    assert [e, v][1..] == [v];
    assert [v][1..] == [];
    assert SortByTime([v]) == [v];
    InsertStep(e, [v]);
  }

  lemma InsertPastTwo(l: TimelineItem, v: TimelineItem, e: TimelineItem)
    requires v.time < e.time < l.time
    ensures Insert(l, [v, e]) == [v, e, l]
  {
    InsertStep(l, [v, e]);
    assert [v, e][1..] == [e];
    InsertStep(l, [e]);
    assert [e][1..] == [];
  }

  /** A store of DATE entities only is kept whole by the category filter. */
  lemma {:induction false} DateEntitiesOfDates(es: seq<Entity>)
    requires forall i :: 0 <= i < |es| ==> es[i].category == Date
    ensures DateEntities(es) == es
  {
    if es != [] {
      DateEntitiesOfDates(es[1..]);
    }
  }

  /** One unfolding of `Insert` on a non-empty sequence. */
  lemma InsertStep(x: TimelineItem, s: seq<TimelineItem>)
    requires s != []
    ensures x.time <= s[0].time ==> Insert(x, s) == [x] + s
    ensures s[0].time < x.time ==> Insert(x, s) == [s[0]] + Insert(x, s[1..])
  {
  }
}
