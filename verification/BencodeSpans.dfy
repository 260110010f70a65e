/** The extents the decoder records: every nested one decodes to its own value, wherever its bytes lie. */
module BencodeSpans {
  import opened Bencode

  /** m lies k levels below n. */
  ghost predicate Inside(m: Node, n: Node, k: nat)
    decreases k
  {
    if k == 0 then m == n
    else if n.value.List? then exists c :: c in n.value.items && Inside(m, c, k - 1)
    else n.value.Dict? && exists e :: e in n.value.entries && Inside(m, e.node, k - 1)
  }

  /** c was decoded from the buffer at the given depth. */
  ghost predicate DecodedAt(b: string, c: Node, depth: nat)
  {
    && c.begin <= |b| && ValueAt(b, c.begin, depth).Ok? && ValueAt(b, c.begin, depth).value == c
    && c.end == ValueAt(b, c.begin, depth).pos
  }

  lemma {:induction false} ItemsDecoded(b: string, p: nat, depth: nat, items: seq<Node>)
    requires p <= |b| && ItemsAt(b, p, depth, items).Ok? && forall c :: c in items ==> DecodedAt(b, c, depth + 1)
    ensures forall c :: c in ItemsAt(b, p, depth, items).value ==> DecodedAt(b, c, depth + 1)
    decreases |b| - p
  {
    hide ValueAt;
    if b[p] != 'e' {
      var r := ValueAt(b, p, depth + 1);
      ItemsDecoded(b, r.pos, depth, items + [r.value]);
    }
  }

  lemma {:induction false} EmplaceContains(entries: seq<Entry>, e: Entry, x: Entry)
    requires x in Emplace(entries, e)
    ensures x in entries || x == e
  {
    hide Less;
    if |entries| > 0 && !Less(e.key, entries[0].key) && e.key != entries[0].key && x != entries[0] {
      EmplaceContains(entries[1..], e, x);
    }
  }

  lemma {:induction false} EntriesDecoded(b: string, p: nat, depth: nat, entries: seq<Entry>)
    requires p <= |b| && EntriesAt(b, p, depth, entries).Ok? && forall x :: x in entries ==> DecodedAt(b, x.node, depth + 1)
    ensures forall x :: x in EntriesAt(b, p, depth, entries).value ==> DecodedAt(b, x.node, depth + 1)
    decreases |b| - p
  {
    hide ValueAt, StringAt, Emplace, Follows;
    if b[p] != 'e' {
      var key := StringAt(b, p);
      var r := ValueAt(b, key.pos, depth + 1);
      var e := Entry(key.value, r.value);
      forall x | x in Emplace(entries, e)
        ensures DecodedAt(b, x.node, depth + 1)
      {
        EmplaceContains(entries, e, x);
      }
      EntriesDecoded(b, r.pos, depth, Emplace(entries, e));
    }
  }

  /** Every value nested in a decoded one was decoded from its own extent. */
  lemma {:induction false} NestedDecoded(b: string, n: Node, depth: nat, m: Node, k: nat)
    requires DecodedAt(b, n, depth) && Inside(m, n, k)
    ensures DecodedAt(b, m, depth + k)
    decreases k
  {
    hide Number, StringAt, ItemsAt, EntriesAt;
    if k > 0 {
      var p := n.begin;
      if n.value.List? {
        ItemsDecoded(b, p + 1, depth, []);
        var c :| c in n.value.items && Inside(m, c, k - 1);
        NestedDecoded(b, c, depth + 1, m, k - 1);
      } else {
        EntriesDecoded(b, p + 1, depth, []);
        var e :| e in n.value.entries && Inside(m, e.node, k - 1);
        NestedDecoded(b, e.node, depth + 1, m, k - 1);
      }
    }
  }

  // --- the extent alone -------------------------------------------------------------------------

  /** A tree moved from one place of a buffer to another. */
  function Moved(n: Node, from: nat, to: nat): Node
  {
    Node(MovedValue(n.value, from, to), Shift(n.begin, from, to), Shift(n.end, from, to))
  }

  function Shift(at: nat, from: nat, to: nat): nat
  {
    if at >= from then at - from + to else to
  }

  function MovedValue(v: Value, from: nat, to: nat): Value
  {
    match v
    case Int(_) => v
    case Str(_) => v
    case List(items) => List(MovedItems(items, from, to))
    case Dict(entries) => Dict(MovedEntries(entries, from, to))
  }

  function MovedItems(items: seq<Node>, from: nat, to: nat): (r: seq<Node>)
    ensures |r| == |items|
  {
    if |items| == 0 then [] else [Moved(items[0], from, to)] + MovedItems(items[1..], from, to)
  }

  function MovedEntries(entries: seq<Entry>, from: nat, to: nat): (r: seq<Entry>)
    ensures |r| == |entries|
    ensures forall i :: 0 <= i < |entries| ==> r[i].key == entries[i].key
  {
    if |entries| == 0 then []
    else [Entry(entries[0].key, Moved(entries[0].node, from, to))] + MovedEntries(entries[1..], from, to)
  }

  lemma {:induction false} MovedItemsSnoc(items: seq<Node>, n: Node, from: nat, to: nat)
    ensures MovedItems(items + [n], from, to) == MovedItems(items, from, to) + [Moved(n, from, to)]
  {
    hide Moved;
    if |items| > 0 {
      assert (items + [n])[1..] == items[1..] + [n];
      MovedItemsSnoc(items[1..], n, from, to);
    } else {
      assert (items + [n])[1..] == [];
    }
  }

  lemma {:induction false} MovedEmplace(entries: seq<Entry>, e: Entry, from: nat, to: nat)
    ensures MovedEntries(Emplace(entries, e), from, to)
            == Emplace(MovedEntries(entries, from, to), Entry(e.key, Moved(e.node, from, to)))
  {
    hide Moved, Less;
    var d := MovedEntries(entries, from, to);
    if |entries| > 0 {
      assert d[1..] == MovedEntries(entries[1..], from, to);
      if Less(e.key, entries[0].key) {
        assert ([e] + entries)[1..] == entries;
      } else if e.key != entries[0].key {
        MovedEmplace(entries[1..], e, from, to);
        assert ([entries[0]] + Emplace(entries[1..], e))[1..] == Emplace(entries[1..], e);
      }
    } else {
      assert ([e] + entries)[1..] == entries;
    }
  }

  /** b and c read the same from p and t on, as far as q. */
  ghost predicate SameText(b: string, p: nat, q: nat, c: string, t: nat)
  {
    p <= q <= |b| && t + (q - p) <= |c| && forall i :: p <= i < q ==> b[i] == c[i - p + t]
  }

  lemma SameTail(b: string, p: nat, q: nat, c: string, t: nat, m: nat)
    requires SameText(b, p, q, c, t) && p <= m <= q
    ensures SameText(b, m, q, c, t + (m - p)) && SameText(b, p, m, c, t)
  {
  }

  lemma {:induction false} RunMoved(b: string, p: nat, q: nat, c: string, t: nat)
    requires SameText(b, p, q, c, t) && RunEnd(b, p) < q
    ensures RunEnd(c, t) == RunEnd(b, p) - p + t
    decreases q - p
  {
    if IsDigit(b[p]) {
      assert b[p] == c[t];
      SameTail(b, p, q, c, t, p + 1);
      RunMoved(b, p + 1, q, c, t + 1);
    } else {
      assert b[p] == c[t];
    }
  }

  lemma NumberMoved(b: string, p: nat, c: string, t: nat, terminator: char, negatives: bool)
    requires p <= |b| && Number(b, p, terminator, negatives).Ok?
    requires SameText(b, p, Number(b, p, terminator, negatives).pos, c, t)
    ensures var r := Number(b, p, terminator, negatives);
            Number(c, t, terminator, negatives) == Ok(r.value, r.pos - p + t, true)
  {
    hide Decimal, RunEnd, IsDigit;
    var q := Number(b, p, terminator, negatives).pos;
    var minus := b[p] == '-';
    var start := if minus then p + 1 else p;
    var end := RunEnd(b, start);
    assert b[p] == c[t] && b[start] == c[start - p + t] && b[end] == c[end - p + t];
    SameTail(b, p, q, c, t, start);
    RunMoved(b, start, q, c, start - p + t);
    SameSlice(b, p, q, c, t, start, end);
  }

  lemma SameSlice(b: string, p: nat, q: nat, c: string, t: nat, lo: nat, hi: nat)
    requires SameText(b, p, q, c, t) && p <= lo <= hi <= q
    ensures b[lo..hi] == c[lo - p + t..hi - p + t]
  {
  }

  lemma StringMoved(b: string, p: nat, c: string, t: nat)
    requires p <= |b| && StringAt(b, p).Ok? && SameText(b, p, StringAt(b, p).pos, c, t)
    ensures StringAt(c, t) == Ok(StringAt(b, p).value, StringAt(b, p).pos - p + t, true)
  {
    hide Number;
    var r, q := Number(b, p, ':', false), StringAt(b, p).pos;
    SameTail(b, p, q, c, t, r.pos);
    NumberMoved(b, p, c, t, ':', false);
    assert b[r.pos..q] == c[r.pos - p + t..q - p + t];
  }

  /** Decoding depends on the value's own bytes only, and tolerates less nesting around it. */
  lemma {:induction false} ValueMoved(b: string, p: nat, depth: nat, c: string, t: nat, less: nat, from: nat, to: nat)
    requires p <= |b| && ValueAt(b, p, depth).Ok? && less <= depth && SameText(b, p, ValueAt(b, p, depth).pos, c, t)
    requires from <= p && t == p - from + to
    ensures var r := ValueAt(b, p, depth); ValueAt(c, t, less) == Ok(Moved(r.value, from, to), r.pos - p + t, r.sorted)
    decreases |b| - p, 0
  {
    hide Number, StringAt, ItemsAt, EntriesAt, MovedItems, MovedEntries;
    var q := ValueAt(b, p, depth).pos;
    assert b[p] == c[t];
    SameTail(b, p, q, c, t, p + 1);
    if b[p] == 'i' {
      NumberMoved(b, p + 1, c, t + 1, 'e', true);
    } else if b[p] == 'l' {
      NothingMoved(from, to);
      ItemsMoved(b, p + 1, depth, [], c, t + 1, less, from, to);
    } else if b[p] == 'd' {
      NothingMoved(from, to);
      EntriesMoved(b, p + 1, depth, [], c, t + 1, less, from, to);
    } else {
      StringMoved(b, p, c, t);
    }
  }

  lemma NothingMoved(from: nat, to: nat)
    ensures MovedItems([], from, to) == [] && MovedEntries([], from, to) == []
  {
  }

  lemma {:induction false} ItemsMoved(b: string, p: nat, depth: nat, items: seq<Node>, c: string, t: nat, less: nat, from: nat, to: nat)
    requires p <= |b| && ItemsAt(b, p, depth, items).Ok? && less <= depth && SameText(b, p, ItemsAt(b, p, depth, items).pos, c, t)
    requires from <= p && t == p - from + to
    ensures var r := ItemsAt(b, p, depth, items);
            ItemsAt(c, t, less, MovedItems(items, from, to)) == Ok(MovedItems(r.value, from, to), r.pos - p + t, r.sorted)
    decreases |b| - p, 1
  {
    hide ValueAt, Moved, MovedItems;
    var q := ItemsAt(b, p, depth, items).pos;
    assert b[p] == c[t];
    if b[p] != 'e' {
      var r := ValueAt(b, p, depth + 1);
      var rest := ItemsAt(b, r.pos, depth, items + [r.value]);
      SameTail(b, p, q, c, t, r.pos);
      ValueMoved(b, p, depth + 1, c, t, less + 1, from, to);
      MovedItemsSnoc(items, r.value, from, to);
      ItemsMoved(b, r.pos, depth, items + [r.value], c, r.pos - p + t, less, from, to);
    }
  }

  lemma {:induction false} EntriesMoved(b: string, p: nat, depth: nat, entries: seq<Entry>, c: string, t: nat, less: nat, from: nat, to: nat)
    requires p <= |b| && EntriesAt(b, p, depth, entries).Ok? && less <= depth && SameText(b, p, EntriesAt(b, p, depth, entries).pos, c, t)
    requires from <= p && t == p - from + to
    ensures var r := EntriesAt(b, p, depth, entries);
            EntriesAt(c, t, less, MovedEntries(entries, from, to)) == Ok(MovedEntries(r.value, from, to), r.pos - p + t, r.sorted)
    decreases |b| - p, 1
  {
    hide ValueAt, StringAt, Moved, MovedEntries, Emplace;
    var q := EntriesAt(b, p, depth, entries).pos;
    assert b[p] == c[t];
    if b[p] != 'e' {
      var key := StringAt(b, p);
      var r := ValueAt(b, key.pos, depth + 1);
      var e := Entry(key.value, r.value);
      var rest := EntriesAt(b, r.pos, depth, Emplace(entries, e));
      SameTail(b, p, q, c, t, key.pos);
      StringMoved(b, p, c, t);
      SameTail(b, key.pos, q, c, t + (key.pos - p), r.pos);
      ValueMoved(b, key.pos, depth + 1, c, key.pos - p + t, less + 1, from, to);
      MovedEmplace(entries, e, from, to);
      EntriesMoved(b, r.pos, depth, Emplace(entries, e), c, r.pos - p + t, less, from, to);
      FollowsMoved(entries, key.value, from, to);
    }
  }

  lemma FollowsMoved(entries: seq<Entry>, key: string, from: nat, to: nat)
    ensures Follows(MovedEntries(entries, from, to), key) <==> Follows(entries, key)
  {
  }

  /** The bytes of any nested extent, taken alone, decode to that very value and leave nothing over. */
  lemma SpanDecodesAlone(b: string, n: Node, m: Node, k: nat)
    requires DecodedAt(b, n, 0) && Inside(m, n, k)
    ensures m.begin <= m.end <= |b|
    ensures var alone := ValueAt(b[m.begin..m.end], 0, 0);
            alone.Ok? && alone.value == Moved(m, m.begin, 0) && alone.pos == m.end - m.begin
  {
    hide Inside, Moved;
    NestedDecoded(b, n, 0, m, k);
    var c := b[m.begin..m.end];
    hide ValueAt;
    assert SameText(b, m.begin, m.end, c, 0);
    ValueMoved(b, m.begin, k, c, 0, 0, m.begin, 0);
  }
}
