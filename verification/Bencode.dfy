/** Bencoding (BEP 3): what the decoder accepts, where every value lies, and the encoder it inverts. */
module Bencode {

  const MAX_DEPTH: nat := 32
  const MAX_STRING: nat := 64 * 1024 * 1024
  const MAX_INT: int := 0x7fff_ffff_ffff_ffff

  /** A value with its extent in the buffer it came from. */
  datatype Node = Node(value: Value, begin: nat, end: nat)
  datatype Value = Int(i: int) | Str(s: string) | List(items: seq<Node>) | Dict(entries: seq<Entry>)

  /** The entries of a dictionary are kept sorted by key. */
  datatype Entry = Entry(key: string, node: Node)

  /** sorted: no dictionary on the way had a key that was not greater than the one before it. */
  datatype Result<T> = Fail | Ok(value: T, pos: nat, sorted: bool)

  // --- keys -----------------------------------------------------------------------------------

  predicate Less(a: string, b: string)
  {
    |b| > 0 && (|a| == 0 || a[0] < b[0] || (a[0] == b[0] && Less(a[1..], b[1..])))
  }

  lemma {:induction false} LessTotal(a: string, b: string)
    ensures Less(a, b) || a == b || Less(b, a)
    ensures !(Less(a, b) && Less(b, a)) && !Less(a, a)
  {
    if |a| > 0 && |b| > 0 {
      LessTotal(a[1..], b[1..]);
      assert a == [a[0]] + a[1..] && b == [b[0]] + b[1..];
    }
    if |a| > 0 {
      LessTotal(a[1..], a[1..]);
    }
  }

  lemma {:induction false} LessTransitive(a: string, b: string, c: string)
    requires Less(a, b) && Less(b, c)
    ensures Less(a, c)
  {
    if |a| > 0 && a[0] == b[0] == c[0] {
      LessTransitive(a[1..], b[1..], c[1..]);
    }
  }

  /** The order of std::string: at the first place where they differ, or by length if one begins the other. */
  lemma {:induction false} LessIff(a: string, b: string)
    ensures Less(a, b) <==> (a < b || exists i :: 0 <= i < |a| && i < |b| && a[..i] == b[..i] && a[i] < b[i])
  {
    if |a| > 0 && |b| > 0 {
      LessIff(a[1..], b[1..]);
      if a[0] == b[0] {
        assert a < b <==> a[1..] < b[1..];
        if i :| 0 <= i < |a| && i < |b| && a[..i] == b[..i] && a[i] < b[i] {
          assert i > 0 && a[1..][..i - 1] == a[..i][1..] && b[1..][..i - 1] == b[..i][1..];
          assert a[1..][i - 1] < b[1..][i - 1];
        }
        if j :| 0 <= j < |a[1..]| && j < |b[1..]| && a[1..][..j] == b[1..][..j] && a[1..][j] < b[1..][j] {
          assert a[..j + 1] == [a[0]] + a[1..][..j] && b[..j + 1] == [b[0]] + b[1..][..j];
          assert a[j + 1] < b[j + 1];
        }
      } else if a[0] < b[0] {
        assert a[..0] == b[..0];
      } else {
        forall i | 0 < i < |a| && i < |b|
          ensures a[..i] != b[..i]
        {
          assert a[..i][0] != b[..i][0];
        }
      }
    }
  }

  /** What a dictionary holds under a key. */
  function Lookup(d: seq<Entry>, key: string): seq<Node>
  {
    if |d| == 0 then [] else if d[0].key == key then [d[0].node] else Lookup(d[1..], key)
  }

  /** emplace adds its key if that is new, and otherwise leaves every key with the value it had. */
  lemma {:induction false} EmplaceKeepsFirst(d: seq<Entry>, e: Entry, key: string)
    requires KeysIncrease(d)
    ensures Lookup(Emplace(d, e), key) == if Lookup(d, key) == [] && key == e.key then [e.node] else Lookup(d, key)
  {
    hide Less;
    if |d| > 0 {
      assert KeysIncrease(d[1..]);
      if Less(e.key, d[0].key) {
        assert ([e] + d)[1..] == d;
        NotBefore(d, e.key);
      } else if e.key != d[0].key {
        EmplaceKeepsFirst(d[1..], e, key);
        assert ([d[0]] + Emplace(d[1..], e))[1..] == Emplace(d[1..], e);
      }
    }
  }

  lemma {:induction false} NotBefore(d: seq<Entry>, key: string)
    requires KeysIncrease(d) && |d| > 0 && Less(key, d[0].key)
    ensures Lookup(d, key) == []
  {
    LessTotal(key, d[0].key);
    hide Less;
    if |d| > 1 {
      assert KeysIncrease(d[1..]);
      LessTransitive(key, d[0].key, d[1].key);
      NotBefore(d[1..], key);
    }
  }

  /** emplace: a new key goes to its place; of equal keys the first one stays. */
  function Emplace(d: seq<Entry>, e: Entry): seq<Entry>
  {
    if |d| == 0 || Less(e.key, d[0].key) then [e] + d
    else if e.key == d[0].key then d
    else [d[0]] + Emplace(d[1..], e)
  }

  predicate Follows(d: seq<Entry>, key: string)
  {
    |d| == 0 || Less(d[|d| - 1].key, key)
  }

  ghost predicate KeysIncrease(d: seq<Entry>)
  {
    forall i :: 0 <= i < |d| - 1 ==> Less(d[i].key, d[i + 1].key)
  }

  lemma {:induction false} EmplaceLast(d: seq<Entry>, e: Entry)
    requires KeysIncrease(d) && Follows(d, e.key)
    ensures Emplace(d, e) == d + [e]
  {
    hide Less;
    if |d| > 0 {
      FirstBeforeAll(d, e.key);
      LessTotal(d[0].key, e.key);
      assert KeysIncrease(d[1..]);
      EmplaceLast(d[1..], e);
      assert d == [d[0]] + d[1..];
    }
  }

  lemma {:induction false} FirstBeforeAll(d: seq<Entry>, key: string)
    requires KeysIncrease(d) && |d| > 0 && Follows(d, key)
    ensures Less(d[0].key, key)
  {
    hide Less;
    if |d| > 1 {
      assert KeysIncrease(d[1..]);
      FirstBeforeAll(d[1..], key);
      LessTransitive(d[0].key, d[1].key, key);
    }
  }

  lemma {:induction false} EmplaceKeepsOrder(d: seq<Entry>, e: Entry)
    requires KeysIncrease(d)
    ensures KeysIncrease(Emplace(d, e)) && |Emplace(d, e)| > 0
    ensures Emplace(d, e)[0].key == if |d| > 0 && !Less(e.key, d[0].key) then d[0].key else e.key
  {
    hide Less;
    if |d| > 0 && !Less(e.key, d[0].key) && e.key != d[0].key {
      LessTotal(e.key, d[0].key);
      assert KeysIncrease(d[1..]);
      EmplaceKeepsOrder(d[1..], e);
    }
  }

  // --- numbers ----------------------------------------------------------------------------------

  predicate IsDigit(c: char)
  {
    '0' <= c <= '9'
  }

  function DigitValue(c: char): (d: nat)
    requires IsDigit(c)
    ensures d < 10
  {
    c as int - '0' as int
  }

  /** The end of the run of digits at p. */
  function RunEnd(b: string, p: nat): (e: nat)
    requires p <= |b|
    ensures p <= e <= |b| && forall i :: p <= i < e ==> IsDigit(b[i])
    ensures e < |b| ==> !IsDigit(b[e])
    decreases |b| - p
  {
    if p < |b| && IsDigit(b[p]) then RunEnd(b, p + 1) else p
  }

  /** The number a run of digits stands for. */
  function Decimal(s: string): nat
    requires forall i :: 0 <= i < |s| ==> IsDigit(s[i])
  {
    if |s| == 0 then 0 else Decimal(s[..|s| - 1]) * 10 + DigitValue(s[|s| - 1])
  }

  /** A number in canonical form, up to its terminator. */
  function Number(b: string, p: nat, terminator: char, negatives: bool): (r: Result<int>)
    requires p <= |b|
    ensures r.Ok? ==> p + 1 < r.pos <= |b| && r.sorted
  {
    var minus := p < |b| && b[p] == '-';
    if minus && !negatives then Fail
    else
      var start := if minus then p + 1 else p;
      var end := RunEnd(b, start);
      var v: int := Decimal(b[start..end]);
      if end == start || v > MAX_INT || (b[start] == '0' && end - start > 1) || (minus && v == 0) then Fail
      else if end >= |b| || b[end] != terminator then Fail
      else Ok(if minus then -v else v, end + 1, true)
  }

  // --- the grammar as the decoder reads it ----------------------------------------------------------

  function StringAt(b: string, p: nat): (r: Result<string>)
    requires p <= |b|
    ensures r.Ok? ==> p < r.pos <= |b| && r.sorted
  {
    match Number(b, p, ':', false)
    case Fail => Fail
    case Ok(n, q, _) => if n < 0 || n > MAX_STRING || |b| - q < n then Fail else Ok(b[q..q + n], q + n, true)
  }

  function ValueAt(b: string, p: nat, depth: nat): (r: Result<Node>)
    requires p <= |b|
    ensures r.Ok? ==> p < r.pos <= |b| && r.value.begin == p && r.value.end == r.pos
    decreases |b| - p, 0
  {
    if depth > MAX_DEPTH || p >= |b| then Fail
    else if b[p] == 'i' then
      match Number(b, p + 1, 'e', true)
      case Fail => Fail
      case Ok(i, q, _) => Ok(Node(Int(i), p, q), q, true)
    else if b[p] == 'l' then
      match ItemsAt(b, p + 1, depth, [])
      case Fail => Fail
      case Ok(items, q, sorted) => Ok(Node(List(items), p, q), q, sorted)
    else if b[p] == 'd' then
      match EntriesAt(b, p + 1, depth, [])
      case Fail => Fail
      case Ok(entries, q, sorted) => Ok(Node(Dict(entries), p, q), q, sorted)
    else if IsDigit(b[p]) then
      match StringAt(b, p)
      case Fail => Fail
      case Ok(s, q, _) => Ok(Node(Str(s), p, q), q, true)
    else Fail
  }

  /** The rest of a list, after the items already read. */
  function ItemsAt(b: string, p: nat, depth: nat, items: seq<Node>): (r: Result<seq<Node>>)
    requires p <= |b|
    ensures r.Ok? ==> p < r.pos <= |b|
    decreases |b| - p, 1
  {
    if p >= |b| then Fail
    else if b[p] == 'e' then Ok(items, p + 1, true)
    else
      match ValueAt(b, p, depth + 1)
      case Fail => Fail
      case Ok(n, q, sorted) =>
        match ItemsAt(b, q, depth, items + [n])
        case Fail => Fail
        case Ok(all, end, rest) => Ok(all, end, sorted && rest)
  }

  /** The rest of a dictionary, after the entries already read. */
  function EntriesAt(b: string, p: nat, depth: nat, entries: seq<Entry>): (r: Result<seq<Entry>>)
    requires p <= |b|
    ensures r.Ok? ==> p < r.pos <= |b|
    decreases |b| - p, 1
  {
    if p >= |b| then Fail
    else if b[p] == 'e' then Ok(entries, p + 1, true)
    else if !IsDigit(b[p]) then Fail
    else
      match StringAt(b, p)
      case Fail => Fail
      case Ok(key, m, _) =>
        match ValueAt(b, m, depth + 1)
        case Fail => Fail
        case Ok(n, q, sorted) =>
          match EntriesAt(b, q, depth, Emplace(entries, Entry(key, n)))
          case Fail => Fail
          case Ok(all, end, rest) => Ok(all, end, sorted && rest && Follows(entries, key))
  }

  // --- the encoder --------------------------------------------------------------------------------

  function Digit(d: nat): (c: char)
    requires d < 10
    ensures IsDigit(c) && DigitValue(c) == d && (c == '0' <==> d == 0)
  {
    (d + 48) as char
  }

  /** std::to_string of a number that is not negative. */
  function Digits(n: nat): (s: string)
    ensures |s| > 0 && forall i :: 0 <= i < |s| ==> IsDigit(s[i])
  {
    if n < 10 then [Digit(n)] else Digits(n / 10) + [Digit(n % 10)]
  }

  function ToString(i: int): string
  {
    if i < 0 then "-" + Digits(-i) else Digits(i)
  }

  function EncodeString(s: string): string
  {
    Digits(|s|) + ":" + s
  }

  function Encode(n: Node): string
  {
    match n.value
    case Int(i) => "i" + ToString(i) + "e"
    case Str(s) => EncodeString(s)
    case List(items) => "l" + EncodeItems(items) + "e"
    case Dict(entries) => "d" + EncodeEntries(entries) + "e"
  }

  function EncodeItems(items: seq<Node>): string
  {
    if |items| == 0 then "" else Encode(items[0]) + EncodeItems(items[1..])
  }

  function EncodeEntries(entries: seq<Entry>): string
  {
    if |entries| == 0 then ""
    else EncodeString(entries[0].key) + Encode(entries[0].node) + EncodeEntries(entries[1..])
  }

  // --- reading numbers and strings back -------------------------------------------------------------

  /** The text s lies in b at p. */
  ghost predicate At(b: string, p: nat, s: string)
  {
    p + |s| <= |b| && b[p..p + |s|] == s
  }

  lemma AtSplit(b: string, p: nat, s: string, t: string)
    requires At(b, p, s + t)
    ensures At(b, p, s) && At(b, p + |s|, t)
  {
    var all := b[p..p + |s| + |t|];
    assert all[..|s|] == s && all[|s|..] == t;
    assert b[p..p + |s|] == all[..|s|];
    assert b[p + |s|..p + |s| + |t|] == all[|s|..];
  }

  lemma {:induction false} DigitsRead(n: nat)
    ensures Decimal(Digits(n)) == n && (Digits(n)[0] == '0' ==> n == 0 && |Digits(n)| == 1)
  {
    if n < 10 {
      assert Digits(n)[..0] == "";
    } else {
      DigitsRead(n / 10);
      assert Digits(n)[..|Digits(n)| - 1] == Digits(n / 10);
    }
  }

  lemma {:induction false} RunAt(b: string, p: nat, s: string)
    requires At(b, p, s) && (forall i :: 0 <= i < |s| ==> IsDigit(s[i]))
    requires p + |s| < |b| && !IsDigit(b[p + |s|])
    ensures RunEnd(b, p) == p + |s|
    decreases |s|
  {
    if |s| > 0 {
      assert b[p] == b[p..p + |s|][0];
      assert b[p + 1..p + 1 + |s[1..]|] == b[p..p + |s|][1..];
      RunAt(b, p + 1, s[1..]);
    }
  }

  /** What Number makes of a canonical run of digits. */
  lemma NumberOfRun(b: string, p: nat, minus: bool, s: string, n: int, terminator: char, negatives: bool)
    requires var start := if minus then p + 1 else p;
             && At(b, start, s) && start + |s| < |b| && b[start + |s|] == terminator && RunEnd(b, start) == start + |s|
             && (minus <==> b[p] == '-') && (minus ==> n > 0 && negatives)
    requires (forall i :: 0 <= i < |s| ==> IsDigit(s[i])) && Decimal(s) == n && |s| > 0 && (s[0] == '0' ==> |s| == 1)
    ensures Number(b, p, terminator, negatives)
            == if n <= MAX_INT then Ok(if minus then -n else n, (if minus then p + 1 else p) + |s| + 1, true) else Fail
  {
    hide Decimal, RunEnd;
    var start := if minus then p + 1 else p;
    assert b[start] == b[start..start + |s|][0];
  }

  lemma AtIs(b: string, p: nat, s: string)
    requires At(b, p, s)
    ensures p + |s| <= |b| && b[p..p + |s|] == s
  {
  }

  lemma AtOne(b: string, p: nat, c: char)
    requires At(b, p, [c])
    ensures p < |b| && b[p] == c
  {
    assert b[p..p + 1][0] == c;
  }

  lemma AtFirst(b: string, p: nat, s: string)
    requires At(b, p, s) && |s| > 0
    ensures p < |b| && b[p] == s[0]
  {
    assert b[p..p + |s|][0] == s[0];
  }

  /** A printed number followed by its terminator reads back as itself, unless its size is out of range. */
  lemma NumberRead(b: string, p: nat, i: int, terminator: char, negatives: bool)
    requires At(b, p, ToString(i) + [terminator]) && !IsDigit(terminator) && (negatives || i >= 0)
    ensures Number(b, p, terminator, negatives)
            == if -MAX_INT <= i <= MAX_INT then Ok(i, p + |ToString(i)| + 1, true) else Fail
  {
    hide At, Number, Digits, Decimal, RunEnd, IsDigit;
    AtSplit(b, p, ToString(i), [terminator]);
    AtOne(b, p + |ToString(i)|, terminator);
    if i < 0 {
      AtSplit(b, p, "-", Digits(-i));
      AtOne(b, p, '-');
      DigitsReadAt(b, p + 1, -i, terminator);
      NumberOfRun(b, p, true, Digits(-i), -i, terminator, negatives);
    } else {
      DigitsReadAt(b, p, i, terminator);
      NoSign(b, p, i);
      NumberOfRun(b, p, false, Digits(i), i, terminator, negatives);
    }
  }

  lemma DigitsReadAt(b: string, p: nat, n: nat, terminator: char)
    requires At(b, p, Digits(n)) && p + |Digits(n)| < |b| && b[p + |Digits(n)|] == terminator && !IsDigit(terminator)
    ensures RunEnd(b, p) == p + |Digits(n)| && Decimal(Digits(n)) == n && (Digits(n)[0] == '0' ==> |Digits(n)| == 1)
  {
    hide At, Digits, Decimal, RunEnd, IsDigit;
    DigitsRead(n);
    RunAt(b, p, Digits(n));
  }

  lemma NoSign(b: string, p: nat, n: nat)
    requires At(b, p, Digits(n))
    ensures p < |b| && b[p] != '-'
  {
    hide Digits;
    AtFirst(b, p, Digits(n));
    assert IsDigit(Digits(n)[0]);
  }

  lemma StringRead(b: string, p: nat, s: string)
    requires At(b, p, EncodeString(s))
    ensures StringAt(b, p) == if |s| <= MAX_STRING then Ok(s, p + |EncodeString(s)|, true) else Fail
    ensures p < |b| && IsDigit(b[p])
  {
    AtSplit(b, p, Digits(|s|) + ":", s);
    hide At, Number, Digits, Decimal, RunEnd;
    NumberRead(b, p, |s|, ':', false);
    AtSplit(b, p, Digits(|s|), ":");
    AtFirst(b, p, Digits(|s|));
    AtIs(b, p + |Digits(|s|)| + 1, s);
  }

  // --- decoding what was encoded -----------------------------------------------------------------------

  /** The entries put into a map one after the other. */
  function Gathered(acc: seq<Entry>, entries: seq<Entry>): seq<Entry>
    decreases |entries|
  {
    if |entries| == 0 then acc else Gathered(Emplace(acc, entries[0]), entries[1..])
  }

  /** What is made of a tree printed at the given place: each value has its extent, each dictionary is a map. */
  function Placed(n: Node, at: nat): Node
  {
    var end := at + |Encode(n)|;
    match n.value
    case Int(_) => Node(n.value, at, end)
    case Str(_) => Node(n.value, at, end)
    case List(items) => Node(List(PlacedItems(items, at + 1)), at, end)
    case Dict(entries) => Node(Dict(Gathered([], PlacedEntries(entries, at + 1))), at, end)
  }

  function PlacedItems(items: seq<Node>, at: nat): seq<Node>
  {
    if |items| == 0 then [] else [Placed(items[0], at)] + PlacedItems(items[1..], at + |Encode(items[0])|)
  }

  function PlacedEntries(entries: seq<Entry>, at: nat): seq<Entry>
  {
    if |entries| == 0 then []
    else
      var k := at + |EncodeString(entries[0].key)|;
      [Entry(entries[0].key, Placed(entries[0].node, k))] + PlacedEntries(entries[1..], k + |Encode(entries[0].node)|)
  }

  /** Everything within the decoder's limits: nesting, string lengths, and no integer at the very bottom. */
  predicate Bounded(n: Node, depth: nat)
    decreases n
  {
    depth <= MAX_DEPTH &&
    match n.value
    case Int(i) => -MAX_INT <= i <= MAX_INT
    case Str(s) => |s| <= MAX_STRING
    case List(items) => BoundedItems(items, depth + 1)
    case Dict(entries) => BoundedEntries(entries, depth + 1)
  }

  predicate BoundedItems(items: seq<Node>, depth: nat)
    decreases items
  {
    |items| == 0 || (Bounded(items[0], depth) && BoundedItems(items[1..], depth))
  }

  predicate BoundedEntries(entries: seq<Entry>, depth: nat)
    decreases entries
  {
    |entries| == 0 || (|entries[0].key| <= MAX_STRING && Bounded(entries[0].node, depth) && BoundedEntries(entries[1..], depth))
  }

  /** Every dictionary in the tree is sorted, as a std::map is. */
  ghost predicate Ordered(n: Node)
  {
    match n.value
    case Int(_) => true
    case Str(_) => true
    case List(items) => OrderedItems(items)
    case Dict(entries) => KeysIncrease(entries) && OrderedEntries(entries)
  }

  ghost predicate OrderedItems(items: seq<Node>)
  {
    |items| == 0 || (Ordered(items[0]) && OrderedItems(items[1..]))
  }

  ghost predicate OrderedEntries(entries: seq<Entry>)
  {
    |entries| == 0 || (Ordered(entries[0].node) && OrderedEntries(entries[1..]))
  }

  /** The keys still to come keep increasing from those gathered on. */
  ghost predicate Climbs(acc: seq<Entry>, entries: seq<Entry>)
  {
    KeysIncrease(entries) && (|entries| > 0 ==> Follows(acc, entries[0].key))
  }

  lemma EncodeBegins(n: Node)
    ensures |Encode(n)| > 0 && Encode(n)[0] != 'e'
    ensures n.value.Int? ==> Encode(n)[0] == 'i'
    ensures n.value.Str? ==> IsDigit(Encode(n)[0])
    ensures n.value.List? ==> Encode(n)[0] == 'l'
    ensures n.value.Dict? ==> Encode(n)[0] == 'd'
  {
  }

  /**
   * Decoding a printed tree gives the tree back, each value with its exact extent, precisely when the
   * tree is within the limits; beyond them the decoder refuses. Dictionaries printed out of order or
   * with a key twice come back sorted, the first of equal keys staying.
   */
  lemma {:induction false} RoundTrip(b: string, p: nat, n: Node, depth: nat)
    requires At(b, p, Encode(n))
    ensures ValueAt(b, p, depth) == if Bounded(n, depth) then Ok(Placed(n, p), p + |Encode(n)|, Ordered(n)) else Fail
    decreases n
  {
    hide At, Number, StringAt, KeysIncrease, ValueAt, Bounded, Placed;
    EncodeBegins(n);
    AtFirst(b, p, Encode(n));
    match n.value
    case Int(i) => RoundTripInt(b, p, n, depth);
    case Str(s) => RoundTripStr(b, p, n, depth);
    case List(items) =>
      ListParts(b, p, items);
      RoundTripItems(b, p + 1, items, depth, []);
      ListValue(b, p, n, depth);
    case Dict(entries) =>
      DictParts(b, p, entries);
      NoKeysYet(entries);
      RoundTripEntries(b, p + 1, entries, depth, []);
      DictValue(b, p, n, depth);
  }

  lemma NoKeysYet(entries: seq<Entry>)
    ensures KeysIncrease([]) && (Climbs([], entries) <==> KeysIncrease(entries))
  {
  }

  lemma ListValue(b: string, p: nat, n: Node, depth: nat)
    requires n.value.List? && p < |b| && b[p] == 'l'
    requires ItemsAt(b, p + 1, depth, [])
             == if BoundedItems(n.value.items, depth + 1)
                then Ok([] + PlacedItems(n.value.items, p + 1), p + 1 + |EncodeItems(n.value.items)| + 1, OrderedItems(n.value.items)) else Fail
    ensures ValueAt(b, p, depth) == if Bounded(n, depth) then Ok(Placed(n, p), p + |Encode(n)|, Ordered(n)) else Fail
  {
    hide ItemsAt, BoundedItems, EncodeItems, PlacedItems, OrderedItems;
    assert [] + PlacedItems(n.value.items, p + 1) == PlacedItems(n.value.items, p + 1);
  }

  lemma DictValue(b: string, p: nat, n: Node, depth: nat)
    requires n.value.Dict? && p < |b| && b[p] == 'd'
    requires EntriesAt(b, p + 1, depth, [])
             == if BoundedEntries(n.value.entries, depth + 1)
                then Ok(Gathered([], PlacedEntries(n.value.entries, p + 1)), p + 1 + |EncodeEntries(n.value.entries)| + 1,
                        OrderedEntries(n.value.entries) && KeysIncrease(n.value.entries)) else Fail
    ensures ValueAt(b, p, depth) == if Bounded(n, depth) then Ok(Placed(n, p), p + |Encode(n)|, Ordered(n)) else Fail
  {
    hide EntriesAt, BoundedEntries, EncodeEntries, PlacedEntries, OrderedEntries, KeysIncrease, Gathered;
  }

  lemma {:induction false} RoundTripInt(b: string, p: nat, n: Node, depth: nat)
    requires At(b, p, Encode(n)) && n.value.Int? && p < |b| && b[p] == 'i'
    ensures ValueAt(b, p, depth) == if Bounded(n, depth) then Ok(Placed(n, p), p + |Encode(n)|, Ordered(n)) else Fail
  {
    hide At, Number, ToString;
    assert Encode(n) == "i" + (ToString(n.value.i) + "e");
    AtSplit(b, p, "i", ToString(n.value.i) + "e");
    NumberRead(b, p + 1, n.value.i, 'e', true);
  }

  lemma {:induction false} RoundTripStr(b: string, p: nat, n: Node, depth: nat)
    requires At(b, p, Encode(n)) && n.value.Str? && p < |b| && IsDigit(b[p])
    ensures ValueAt(b, p, depth) == if Bounded(n, depth) then Ok(Placed(n, p), p + |Encode(n)|, Ordered(n)) else Fail
  {
    hide At, StringAt, EncodeString;
    StringRead(b, p, n.value.s);
  }

  lemma ListParts(b: string, p: nat, items: seq<Node>)
    requires At(b, p, "l" + EncodeItems(items) + "e")
    ensures At(b, p + 1, EncodeItems(items) + "e")
  {
    hide EncodeItems, At;
    assert "l" + EncodeItems(items) + "e" == "l" + (EncodeItems(items) + "e");
    AtSplit(b, p, "l", EncodeItems(items) + "e");
  }

  lemma DictParts(b: string, p: nat, entries: seq<Entry>)
    requires At(b, p, "d" + EncodeEntries(entries) + "e")
    ensures At(b, p + 1, EncodeEntries(entries) + "e")
  {
    hide EncodeEntries, At;
    assert "d" + EncodeEntries(entries) + "e" == "d" + (EncodeEntries(entries) + "e");
    AtSplit(b, p, "d", EncodeEntries(entries) + "e");
  }

  lemma {:induction false} RoundTripItems(b: string, p: nat, items: seq<Node>, depth: nat, acc: seq<Node>)
    requires At(b, p, EncodeItems(items) + "e")
    ensures ItemsAt(b, p, depth, acc)
            == if BoundedItems(items, depth + 1) then Ok(acc + PlacedItems(items, p), p + |EncodeItems(items)| + 1, OrderedItems(items)) else Fail
    decreases items
  {
    hide At, ValueAt, Encode, Placed, Ordered, Bounded;
    if |items| == 0 {
      assert EncodeItems(items) + "e" == "e";
      AtOne(b, p, 'e');
      assert acc + [] == acc;
    } else {
      var first, rest := Encode(items[0]), EncodeItems(items[1..]);
      assert EncodeItems(items) + "e" == first + (rest + "e");
      AtSplit(b, p, first, rest + "e");
      EncodeBegins(items[0]);
      AtFirst(b, p, first);
      RoundTrip(b, p, items[0], depth + 1);
      var n := Placed(items[0], p);
      RoundTripItems(b, p + |first|, items[1..], depth, acc + [n]);
      assert acc + [n] + PlacedItems(items[1..], p + |first|) == acc + PlacedItems(items, p);
    }
  }

  lemma {:induction false} RoundTripEntries(b: string, p: nat, entries: seq<Entry>, depth: nat, acc: seq<Entry>)
    requires At(b, p, EncodeEntries(entries) + "e") && KeysIncrease(acc)
    ensures EntriesAt(b, p, depth, acc)
            == if BoundedEntries(entries, depth + 1)
               then Ok(Gathered(acc, PlacedEntries(entries, p)), p + |EncodeEntries(entries)| + 1, OrderedEntries(entries) && Climbs(acc, entries))
               else Fail
    decreases entries
  {
    hide At, ValueAt, StringAt, Encode, EncodeString, Placed, Ordered, Bounded, Emplace, Less, KeysIncrease, Follows, Climbs, EntriesAt, EncodeEntries, BoundedEntries, PlacedEntries, OrderedEntries, Gathered;
    if |entries| == 0 {
      EntriesEnd(b, p, entries, depth, acc);
    } else {
      var key, node := entries[0].key, entries[0].node;
      var k, v := EncodeString(key), Encode(node);
      EntryParts(b, p, entries);
      StringRead(b, p, key);
      RoundTrip(b, p + |k|, node, depth + 1);
      var e := Entry(key, Placed(node, p + |k|));
      EmplaceKeepsOrder(acc, e);
      ClimbsOn(acc, e, entries);
      RoundTripEntries(b, p + |k| + |v|, entries[1..], depth, Emplace(acc, e));
      EntriesStep(b, p, depth, acc);
      EntriesSplit(entries, p, depth + 1, acc);
    }
  }

  lemma EntriesEnd(b: string, p: nat, entries: seq<Entry>, depth: nat, acc: seq<Entry>)
    requires |entries| == 0 && At(b, p, EncodeEntries(entries) + "e")
    ensures BoundedEntries(entries, depth + 1) && OrderedEntries(entries) && Climbs(acc, entries)
    ensures EntriesAt(b, p, depth, acc) == Ok(Gathered(acc, PlacedEntries(entries, p)), p + |EncodeEntries(entries)| + 1, true)
  {
    assert EncodeEntries(entries) + "e" == "e";
    AtOne(b, p, 'e');
  }

  lemma ClimbsOn(acc: seq<Entry>, e: Entry, entries: seq<Entry>)
    requires KeysIncrease(acc) && |entries| > 0 && entries[0].key == e.key
    ensures Climbs(acc, entries) <==> Follows(acc, e.key) && Climbs(Emplace(acc, e), entries[1..])
  {
    hide Less, Emplace;
    if Follows(acc, e.key) {
      EmplaceLast(acc, e);
      if KeysIncrease(entries[1..]) && (|entries| > 1 ==> Less(e.key, entries[1].key)) {
        forall i | 0 <= i < |entries| - 1
          ensures Less(entries[i].key, entries[i + 1].key)
        {
          assert i > 0 ==> entries[i] == entries[1..][i - 1] && entries[i + 1] == entries[1..][i];
        }
      }
    }
  }

  /** EntriesAt, unfolded once. */
  lemma EntriesStep(b: string, p: nat, depth: nat, acc: seq<Entry>)
    requires p < |b| && IsDigit(b[p])
    ensures StringAt(b, p).Fail? ==> EntriesAt(b, p, depth, acc) == Fail
    ensures StringAt(b, p).Ok? ==>
              var key := StringAt(b, p).value;
              var n := ValueAt(b, StringAt(b, p).pos, depth + 1);
              if n.Fail? then EntriesAt(b, p, depth, acc) == Fail
              else
                var rest := EntriesAt(b, n.pos, depth, Emplace(acc, Entry(key, n.value)));
                EntriesAt(b, p, depth, acc) == if rest.Fail? then Fail else Ok(rest.value, rest.pos, n.sorted && rest.sorted && Follows(acc, key))
  {
    hide ValueAt, StringAt, Emplace, Follows;
  }

  lemma EntriesSplit(entries: seq<Entry>, p: nat, depth: nat, acc: seq<Entry>)
    requires |entries| > 0
    ensures var key, node, k, v := entries[0].key, entries[0].node, EncodeString(entries[0].key), Encode(entries[0].node);
            && EncodeEntries(entries) == k + v + EncodeEntries(entries[1..])
            && (BoundedEntries(entries, depth) <==> |key| <= MAX_STRING && Bounded(node, depth) && BoundedEntries(entries[1..], depth))
            && (OrderedEntries(entries) <==> Ordered(node) && OrderedEntries(entries[1..]))
            && Gathered(acc, PlacedEntries(entries, p))
               == Gathered(Emplace(acc, Entry(key, Placed(node, p + |k|))), PlacedEntries(entries[1..], p + |k| + |v|))
  {
    hide Encode, EncodeString, Placed, Bounded, Ordered, Emplace;
    assert PlacedEntries(entries, p)[1..] == PlacedEntries(entries[1..], p + |EncodeString(entries[0].key)| + |Encode(entries[0].node)|);
  }

  lemma EntryParts(b: string, p: nat, entries: seq<Entry>)
    requires |entries| > 0 && At(b, p, EncodeEntries(entries) + "e")
    ensures var k, v := EncodeString(entries[0].key), Encode(entries[0].node);
            At(b, p, k) && At(b, p + |k|, v) && At(b, p + |k| + |v|, EncodeEntries(entries[1..]) + "e")
  {
    hide At, Encode, EncodeString;
    var k, v, rest := EncodeString(entries[0].key), Encode(entries[0].node), EncodeEntries(entries[1..]);
    assert EncodeEntries(entries) + "e" == k + (v + (rest + "e"));
    AtSplit(b, p, k, v + (rest + "e"));
    AtSplit(b, p + |k|, v, rest + "e");
  }

  // --- encoding what was decoded -------------------------------------------------------------------------

  lemma {:induction false} DigitsBack(s: string)
    requires |s| > 0 && (forall i :: 0 <= i < |s| ==> IsDigit(s[i])) && (s[0] == '0' ==> |s| == 1)
    ensures Digits(Decimal(s)) == s && (s[0] != '0' ==> Decimal(s) > 0)
  {
    var t, d := s[..|s| - 1], DigitValue(s[|s| - 1]);
    if |s| == 1 {
      assert Decimal(t) == 0;
    } else {
      DigitsBack(t);
      assert s == t + [s[|s| - 1]];
    }
  }

  lemma SliceJoin(b: string, p: nat, m: nat, q: nat)
    requires p <= m <= q <= |b|
    ensures b[p..q] == b[p..m] + b[m..q]
  {
  }

  lemma NumberBack(b: string, p: nat, terminator: char, negatives: bool)
    requires p <= |b| && Number(b, p, terminator, negatives).Ok?
    ensures var r := Number(b, p, terminator, negatives); b[p..r.pos] == ToString(r.value) + [terminator]
    ensures !negatives ==> Number(b, p, terminator, negatives).value >= 0
  {
    hide Digits, Decimal, RunEnd, IsDigit;
    var minus := b[p] == '-';
    var start := if minus then p + 1 else p;
    var end := RunEnd(b, start);
    DigitsBack(b[start..end]);
    assert b[start] == b[start..end][0];
    SliceJoin(b, p, end, end + 1);
    if minus {
      SliceJoin(b, p, p + 1, end);
    }
  }

  lemma StringBack(b: string, p: nat)
    requires p <= |b| && StringAt(b, p).Ok?
    ensures b[p..StringAt(b, p).pos] == EncodeString(StringAt(b, p).value)
  {
    hide Digits, Number;
    NumberBack(b, p, ':', false);
    var r := Number(b, p, ':', false);
    SliceJoin(b, p, r.pos, r.pos + r.value);
  }

  /** What the decoder builds is always ordered. */
  lemma {:induction false} DecodedOrdered(b: string, p: nat, depth: nat)
    requires p <= |b| && ValueAt(b, p, depth).Ok?
    ensures Ordered(ValueAt(b, p, depth).value)
    decreases |b| - p, 0
  {
    hide Number, StringAt, KeysIncrease, ItemsAt, EntriesAt;
    if b[p] == 'l' {
      OrderedNone();
      DecodedItemsOrdered(b, p + 1, depth, []);
    } else if b[p] == 'd' {
      OrderedNone();
      DecodedEntriesOrdered(b, p + 1, depth, []);
    }
  }

  lemma OrderedNone()
    ensures OrderedItems([]) && OrderedEntries([]) && KeysIncrease([])
  {
  }

  lemma {:induction false} OrderedItemsSnoc(items: seq<Node>, n: Node)
    requires OrderedItems(items) && Ordered(n)
    ensures OrderedItems(items + [n])
  {
    hide Ordered;
    if |items| > 0 {
      assert (items + [n])[1..] == items[1..] + [n];
      OrderedItemsSnoc(items[1..], n);
    }
  }

  lemma {:induction false} OrderedEmplace(entries: seq<Entry>, e: Entry)
    requires OrderedEntries(entries) && Ordered(e.node)
    ensures OrderedEntries(Emplace(entries, e))
  {
    hide Ordered, Less;
    if |entries| > 0 {
      if Less(e.key, entries[0].key) {
        assert ([e] + entries)[1..] == entries;
      } else if e.key != entries[0].key {
        OrderedEmplace(entries[1..], e);
        assert ([entries[0]] + Emplace(entries[1..], e))[1..] == Emplace(entries[1..], e);
      }
    }
  }

  lemma {:induction false} DecodedItemsOrdered(b: string, p: nat, depth: nat, items: seq<Node>)
    requires p <= |b| && ItemsAt(b, p, depth, items).Ok? && OrderedItems(items)
    ensures OrderedItems(ItemsAt(b, p, depth, items).value)
    decreases |b| - p, 1
  {
    hide ValueAt, Ordered, OrderedItems;
    if b[p] != 'e' {
      var r := ValueAt(b, p, depth + 1);
      DecodedOrdered(b, p, depth + 1);
      OrderedItemsSnoc(items, r.value);
      DecodedItemsOrdered(b, r.pos, depth, items + [r.value]);
    }
  }

  lemma {:induction false} DecodedEntriesOrdered(b: string, p: nat, depth: nat, entries: seq<Entry>)
    requires p <= |b| && EntriesAt(b, p, depth, entries).Ok? && OrderedEntries(entries) && KeysIncrease(entries)
    ensures OrderedEntries(EntriesAt(b, p, depth, entries).value) && KeysIncrease(EntriesAt(b, p, depth, entries).value)
    decreases |b| - p, 1
  {
    hide ValueAt, StringAt, Ordered, OrderedEntries, KeysIncrease, Emplace, Follows;
    if b[p] != 'e' {
      var key := StringAt(b, p);
      var r := ValueAt(b, key.pos, depth + 1);
      DecodedOrdered(b, key.pos, depth + 1);
      var e := Entry(key.value, r.value);
      OrderedEmplace(entries, e);
      EmplaceKeepsOrder(entries, e);
      DecodedEntriesOrdered(b, r.pos, depth, Emplace(entries, e));
    }
  }

  // --- the tree that a text prints ------------------------------------------------------------------------

  /** Every text that decodes is the printing of a tree, with the entries as they stand in the text. */
  lemma {:induction false} TextOf(b: string, p: nat, depth: nat) returns (n: Node)
    requires p <= |b| && ValueAt(b, p, depth).Ok?
    ensures b[p..ValueAt(b, p, depth).pos] == Encode(n)
    decreases |b| - p, 0
  {
    hide Number, StringAt, ItemsAt, EntriesAt, ToString, EncodeString, EncodeItems, EncodeEntries;
    var q := ValueAt(b, p, depth).pos;
    SliceJoin(b, p, p + 1, q);
    assert b[p..p + 1] == [b[p]];
    if b[p] == 'i' {
      NumberBack(b, p + 1, 'e', true);
      n := ValueAt(b, p, depth).value;
      var i := Number(b, p + 1, 'e', true).value;
      assert "i" + ToString(i) + "e" == "i" + (ToString(i) + "e");
    } else if b[p] == 'l' {
      var items := TextOfItems(b, p + 1, depth, []);
      n := Node(List(items), p, q);
      assert "l" + EncodeItems(items) + "e" == "l" + (EncodeItems(items) + "e");
    } else if b[p] == 'd' {
      var entries := TextOfEntries(b, p + 1, depth, []);
      n := Node(Dict(entries), p, q);
      assert "d" + EncodeEntries(entries) + "e" == "d" + (EncodeEntries(entries) + "e");
    } else {
      StringBack(b, p);
      n := ValueAt(b, p, depth).value;
    }
  }

  lemma {:induction false} TextOfItems(b: string, p: nat, depth: nat, acc: seq<Node>) returns (items: seq<Node>)
    requires p <= |b| && ItemsAt(b, p, depth, acc).Ok?
    ensures b[p..ItemsAt(b, p, depth, acc).pos] == EncodeItems(items) + "e"
    decreases |b| - p, 1
  {
    hide ValueAt, Encode;
    items := [];
    if b[p] != 'e' {
      var r := ValueAt(b, p, depth + 1);
      var n := TextOf(b, p, depth + 1);
      var rest := TextOfItems(b, r.pos, depth, acc + [r.value]);
      SliceJoin(b, p, r.pos, ItemsAt(b, p, depth, acc).pos);
      items := [n] + rest;
      assert items[1..] == rest;
    }
  }

  lemma {:induction false} TextOfEntries(b: string, p: nat, depth: nat, acc: seq<Entry>) returns (entries: seq<Entry>)
    requires p <= |b| && EntriesAt(b, p, depth, acc).Ok?
    ensures b[p..EntriesAt(b, p, depth, acc).pos] == EncodeEntries(entries) + "e"
    decreases |b| - p, 1
  {
    hide ValueAt, StringAt, Encode, EncodeString, Emplace, Follows;
    entries := [];
    if b[p] != 'e' {
      var key := StringAt(b, p);
      var r := ValueAt(b, key.pos, depth + 1);
      var n := TextOf(b, key.pos, depth + 1);
      StringBack(b, p);
      var rest := TextOfEntries(b, r.pos, depth, Emplace(acc, Entry(key.value, r.value)));
      var q := EntriesAt(b, p, depth, acc).pos;
      SliceJoin(b, p, key.pos, r.pos);
      SliceJoin(b, p, r.pos, q);
      entries := [Entry(key.value, n)] + rest;
      assert entries[1..] == rest;
    }
  }

  /** Where every dictionary is in order, placing a tree leaves its printing as it was. */
  lemma {:induction false} EncodePlaced(n: Node, at: nat)
    requires Ordered(n)
    ensures Encode(Placed(n, at)) == Encode(n)
    decreases n
  {
    hide EncodeString, KeysIncrease, EncodeItems, EncodeEntries, PlacedItems, PlacedEntries, OrderedItems, OrderedEntries, Gathered;
    if n.value.List? {
      EncodePlacedItems(n.value.items, at + 1);
    } else if n.value.Dict? {
      EncodePlacedEntries(n.value.entries, at + 1);
      PlacedInOrder(n, at);
    }
  }

  /** A dictionary in order keeps its entries one for one. */
  lemma PlacedInOrder(n: Node, at: nat)
    requires Ordered(n) && n.value.Dict?
    ensures Placed(n, at).value == Dict(PlacedEntries(n.value.entries, at + 1))
  {
    hide KeysIncrease, PlacedEntries, OrderedEntries, Encode, EncodeEntries, Climbs;
    var placed := PlacedEntries(n.value.entries, at + 1);
    EncodePlacedEntries(n.value.entries, at + 1);
    NoKeysYet(placed);
    GatheredInOrder([], placed);
    assert [] + placed == placed;
  }

  lemma {:induction false} EncodePlacedItems(items: seq<Node>, at: nat)
    requires OrderedItems(items)
    ensures EncodeItems(PlacedItems(items, at)) == EncodeItems(items)
    decreases items
  {
    hide Encode, Placed, Ordered;
    if |items| > 0 {
      EncodePlaced(items[0], at);
      EncodePlacedItems(items[1..], at + |Encode(items[0])|);
      assert PlacedItems(items, at)[1..] == PlacedItems(items[1..], at + |Encode(items[0])|);
    }
  }

  lemma {:induction false} EncodePlacedEntries(entries: seq<Entry>, at: nat)
    requires OrderedEntries(entries)
    ensures EncodeEntries(PlacedEntries(entries, at)) == EncodeEntries(entries) && |PlacedEntries(entries, at)| == |entries|
    ensures KeysIncrease(entries) ==> KeysIncrease(PlacedEntries(entries, at))
    ensures |entries| > 0 ==> PlacedEntries(entries, at)[0].key == entries[0].key
    decreases entries
  {
    hide Encode, EncodeString, Placed, Ordered, Less;
    if |entries| > 0 {
      var k := at + |EncodeString(entries[0].key)|;
      var next := k + |Encode(entries[0].node)|;
      EncodePlaced(entries[0].node, k);
      EncodePlacedEntries(entries[1..], next);
      var rest := PlacedEntries(entries[1..], next);
      assert PlacedEntries(entries, at) == [Entry(entries[0].key, Placed(entries[0].node, k))] + rest;
      assert PlacedEntries(entries, at)[1..] == rest;
      if KeysIncrease(entries) {
        assert KeysIncrease(entries[1..]);
        assert |rest| > 0 ==> Less(entries[0].key, rest[0].key);
      }
    }
  }

  lemma {:induction false} GatheredInOrder(acc: seq<Entry>, entries: seq<Entry>)
    requires KeysIncrease(acc) && Climbs(acc, entries)
    ensures Gathered(acc, entries) == acc + entries
    decreases |entries|
  {
    hide Less, Emplace, KeysIncrease, Follows, Climbs;
    if |entries| == 0 {
      assert acc + entries == acc;
    } else {
      ClimbsOn(acc, entries[0], entries);
      EmplaceLast(acc, entries[0]);
      EmplaceKeepsOrder(acc, entries[0]);
      GatheredInOrder(acc + [entries[0]], entries[1..]);
      assert acc + [entries[0]] + entries[1..] == acc + entries;
    }
  }

  /**
   * Re-encoding reproduces the source bytes exactly when every dictionary printed there had its keys
   * strictly increasing, whatever tree is taken for the text (and there is one: TextOf).
   */
  lemma ReencodesIff(b: string, p: nat, depth: nat, n: Node)
    requires p <= |b| && ValueAt(b, p, depth).Ok? && b[p..ValueAt(b, p, depth).pos] == Encode(n)
    ensures Encode(ValueAt(b, p, depth).value) == Encode(n) <==> Ordered(n)
  {
    hide ValueAt, Encode, Ordered, Placed, Bounded;
    var r := ValueAt(b, p, depth);
    RoundTrip(b, p, n, depth);
    if Ordered(n) {
      EncodePlaced(n, p);
    } else if Encode(r.value) == Encode(n) {
      DecodedOrdered(b, p, depth);
      RoundTrip(b, p, r.value, depth);
    }
  }
}
