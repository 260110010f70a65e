/** The decoder as an object with a cursor. */
module BencodeParser {
  import opened Bencode

  class Parser {
    const b: string
    var p: nat

    constructor (b: string)
      ensures this.b == b && p == 0
    {
      this.b, p := b, 0;
    }

    /** read_number: gives up as soon as the value would exceed 64 bits. */
    method ReadNumber(terminator: char, negatives: bool) returns (ok: bool, out: int)
      requires p <= |b|
      modifies this
      ensures Reads(Number(b, old(p), terminator, negatives), ok, out, p)
    {
      hide Decimal, RunEnd, IsDigit;
      out := 0;
      var negative := false;
      if p < |b| && b[p] == '-' {
        if !negatives {
          return false, 0;
        }
        negative := true;
        p := p + 1;
      }
      var begin := p;
      var inRange, value := ReadDigits();
      if !inRange || p == begin {
        return false, 0;
      }
      if b[begin] == '0' && p - begin > 1 {
        return false, 0;
      }
      if negative && value == 0 {
        return false, 0;
      }
      if p >= |b| || b[p] != terminator {
        return false, 0;
      }
      p := p + 1;
      return true, if negative then -value else value;
    }

    /** The digit loop. */
    method ReadDigits() returns (inRange: bool, value: int)
      requires p <= |b|
      modifies this
      ensures old(p) <= p <= |b|
      ensures inRange <==> Decimal(b[old(p)..RunEnd(b, old(p))]) <= MAX_INT
      ensures inRange ==> p == RunEnd(b, old(p)) && value == Decimal(b[old(p)..p])
    {
      hide Decimal, RunEnd, IsDigit;
      value := 0;
      ghost var begin, end := p, RunEnd(b, p);
      DecimalNone(b, p);
      while p < |b| && IsDigit(b[p])
        invariant begin <= p <= end
        invariant value == Decimal(b[begin..p]) && 0 <= value <= MAX_INT
        decreases |b| - p
      {
        var digit := DigitValue(b[p]);
        DecimalSnoc(b, begin, p);
        if value > (MAX_INT - digit) / 10 {
          DecimalGrows(b, begin, p + 1, end);
          return false, 0;
        }
        value := value * 10 + digit;
        p := p + 1;
      }
      inRange := true;
    }

    method ParseStr() returns (ok: bool, s: string)
      requires p <= |b|
      modifies this
      ensures Reads(StringAt(b, old(p)), ok, s, p)
    {
      hide Number;
      s := "";
      var isNumber, len := ReadNumber(':', false);
      if !isNumber || len < 0 || len > MAX_STRING || |b| - p < len {
        return false, "";
      }
      s := b[p..p + len];
      p := p + len;
      ok := true;
    }

    method ParseList(depth: nat) returns (ok: bool, items: seq<Node>)
      requires p < |b| && b[p] == 'l'
      modifies this
      ensures Reads(ItemsAt(b, old(p) + 1, depth, []), ok, items, p)
      decreases |b| - p, 0
    {
      hide ValueAt, ItemsAt;
      ghost var start := p;
      p := p + 1;
      ok, items := false, [];
      while true
        invariant start < p <= |b|
        invariant SameOutcome(ItemsAt(b, start + 1, depth, []), ItemsAt(b, p, depth, items))
        decreases |b| - p
      {
        ItemsUnfold(b, p, depth, items);
        if p >= |b| {
          return false, items;
        }
        if b[p] == 'e' {
          p := p + 1;
          return true, items;
        }
        var good, n := Parse(depth + 1);
        if !good {
          return false, items;
        }
        items := items + [n];
      }
    }

    method ParseDict(depth: nat) returns (ok: bool, entries: seq<Entry>)
      requires p < |b| && b[p] == 'd'
      modifies this
      ensures Reads(EntriesAt(b, old(p) + 1, depth, []), ok, entries, p)
      decreases |b| - p, 0
    {
      hide ValueAt, EntriesAt, StringAt, Emplace;
      ghost var start := p;
      p := p + 1;
      ok, entries := false, [];
      while true
        invariant start < p <= |b|
        invariant SameOutcome(EntriesAt(b, start + 1, depth, []), EntriesAt(b, p, depth, entries))
        decreases |b| - p
      {
        EntriesUnfold(b, p, depth, entries);
        if p >= |b| {
          return false, entries;
        }
        if b[p] == 'e' {
          p := p + 1;
          return true, entries;
        }
        if !IsDigit(b[p]) {
          return false, entries;
        }
        var hasKey, key := ParseStr();
        if !hasKey {
          return false, entries;
        }
        var good, n := Parse(depth + 1);
        if !good {
          return false, entries;
        }
        entries := Emplace(entries, Entry(key, n));
      }
    }

    method Parse(depth: nat) returns (ok: bool, n: Node)
      requires p <= |b|
      modifies this
      ensures Reads(ValueAt(b, old(p), depth), ok, n, p)
      decreases |b| - p, 1
    {
      hide ItemsAt, EntriesAt, StringAt, Number;
      ok, n := false, Node(Int(0), 0, 0);
      if depth > MAX_DEPTH || p >= |b| {
        return;
      }
      var begin := p;
      if b[p] == 'i' {
        p := p + 1;
        var i;
        ok, i := ReadNumber('e', true);
        n := Node(Int(i), begin, p);
      } else if b[p] == 'l' {
        var items;
        ok, items := ParseList(depth);
        n := Node(List(items), begin, p);
      } else if b[p] == 'd' {
        var entries;
        ok, entries := ParseDict(depth);
        n := Node(Dict(entries), begin, p);
      } else if IsDigit(b[p]) {
        var s;
        ok, s := ParseStr();
        n := Node(Str(s), begin, p);
      }
    }
  }

  /** A method's outcome is the one the grammar gives. */
  ghost predicate Reads<T>(r: Result<T>, ok: bool, value: T, pos: nat)
  {
    (ok <==> r.Ok?) && (ok ==> value == r.value && pos == r.pos)
  }

  ghost predicate SameOutcome<T>(r: Result<T>, s: Result<T>)
  {
    (r.Ok? <==> s.Ok?) && (r.Ok? ==> r.value == s.value && r.pos == s.pos)
  }

  lemma ItemsUnfold(b: string, p: nat, depth: nat, items: seq<Node>)
    requires p <= |b|
    ensures p < |b| && b[p] == 'e' ==> ItemsAt(b, p, depth, items) == Ok(items, p + 1, true)
    ensures p >= |b| ==> ItemsAt(b, p, depth, items).Fail?
    ensures p < |b| && b[p] != 'e' ==>
              var r := ValueAt(b, p, depth + 1);
              if r.Fail? then ItemsAt(b, p, depth, items).Fail?
              else SameOutcome(ItemsAt(b, p, depth, items), ItemsAt(b, r.pos, depth, items + [r.value]))
  {
    hide ValueAt;
  }

  lemma EntriesUnfold(b: string, p: nat, depth: nat, entries: seq<Entry>)
    requires p <= |b|
    ensures p < |b| && b[p] == 'e' ==> EntriesAt(b, p, depth, entries) == Ok(entries, p + 1, true)
    ensures p >= |b| || (b[p] != 'e' && !IsDigit(b[p])) ==> EntriesAt(b, p, depth, entries).Fail?
    ensures p < |b| && b[p] != 'e' && IsDigit(b[p]) ==>
              var key := StringAt(b, p);
              if key.Fail? then EntriesAt(b, p, depth, entries).Fail?
              else
                var r := ValueAt(b, key.pos, depth + 1);
                if r.Fail? then EntriesAt(b, p, depth, entries).Fail?
                else SameOutcome(EntriesAt(b, p, depth, entries), EntriesAt(b, r.pos, depth, Emplace(entries, Entry(key.value, r.value))))
  {
    hide ValueAt, StringAt, Emplace, Follows;
  }

  lemma DecimalNone(b: string, p: nat)
    requires p <= |b|
    ensures Decimal(b[p..p]) == 0
  {
  }

  lemma DecimalSnoc(b: string, begin: nat, p: nat)
    requires begin <= p < |b| && (forall i :: begin <= i <= p ==> IsDigit(b[i]))
    ensures Decimal(b[begin..p + 1]) == Decimal(b[begin..p]) * 10 + DigitValue(b[p])
  {
    assert b[begin..p + 1][..p - begin] == b[begin..p];
  }

  /** Further digits never make a number smaller. */
  lemma {:induction false} DecimalGrows(b: string, begin: nat, p: nat, end: nat)
    requires begin <= p <= end <= |b| && (forall i :: begin <= i < end ==> IsDigit(b[i]))
    ensures Decimal(b[begin..end]) >= Decimal(b[begin..p])
    decreases end - p
  {
    if p < end {
      DecimalSnoc(b, begin, p);
      DecimalGrows(b, begin, p + 1, end);
    }
  }

  /** bdecode: one value from the start; bytes left over after it are tolerated. */
  method Bdecode(b: string) returns (ok: bool, n: Node)
    ensures ok <==> ValueAt(b, 0, 0).Ok?
    ensures ok ==> n == ValueAt(b, 0, 0).value
  {
    var parser := new Parser(b);
    ok, n := parser.Parse(0);
  }

  /** bdecode gives back what bencode was given, exactly when it is within the decoder's limits. */
  lemma DecodesEncoding(n: Node)
    requires Ordered(n)
    ensures ValueAt(Encode(n), 0, 0) == if Bounded(n, 0) then Ok(Placed(n, 0), |Encode(n)|, true) else Fail
  {
    assert At(Encode(n), 0, Encode(n));
    RoundTrip(Encode(n), 0, n, 0);
  }
}
