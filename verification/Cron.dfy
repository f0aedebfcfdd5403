/**
 The cron compiler (internal/platform/schedule/cron.go): five text fields become
 five bit masks. The meaning of a field is defined on its text alone, and the
 compiled masks are proved to agree with it.
 */
module CronText {
  import opened Common
  import opened Strconv
  import opened Text

  datatype Kind = Minute | Hour | DayOfMonth | Month | DayOfWeek

  function Min(k: Kind): nat { if k.DayOfMonth? || k.Month? then 1 else 0 }

  function Max(k: Kind): nat {
    match k case Minute => 59 case Hour => 23 case DayOfMonth => 31 case Month => 12 case DayOfWeek => 7
  }

  /** strings.Split on one character. */
  function Split(s: string, sep: char): (r: seq<string>)
    ensures |r| > 0
    decreases |s|
  {
    var i := IndexOf(s, sep);
    if i == |s| then [s] else [s[..i]] + Split(s[i + 1..], sep)
  }

  function SpaceIndex(s: string): (i: nat)
    ensures i <= |s|
  {
    if s == [] || IsSpace(s[0]) then 0 else 1 + SpaceIndex(s[1..])
  }

  /** strings.Fields. */
  function Fields(s: string): seq<string>
    decreases |s|
  {
    var t := TrimLeft(s);
    if t == [] then []
    else
      var i := SpaceIndex(t);
      if i == 0 then [] else [t[..i]] + Fields(t[i..])
  }

  /** The upper-case letter, for every character whose upper case is an ASCII letter. */
  function Upper(c: char): char {
    if 'a' <= c <= 'z' then 'A' + (c - 'a') else if c == '\U{0131}' then 'I' else if c == '\U{017F}' then 'S' else c
  }

  function ToUpper(s: string): string { seq(|s|, i requires 0 <= i < |s| => Upper(s[i])) }

  const MONTHS := ["JAN", "FEB", "MAR", "APR", "MAY", "JUN", "JUL", "AUG", "SEP", "OCT", "NOV", "DEC"]
  const DAYS := ["SUN", "MON", "TUE", "WED", "THU", "FRI", "SAT"]

  /** The position of a name in a table, counted from first. */
  function Lookup(names: seq<string>, name: string, first: int): Option<int> {
    if names == [] then None else if names[0] == name then Some(first) else Lookup(names[1..], name, first + 1)
  }

  function Resolve(k: Kind, token: string): Option<int> {
    match Atoi(token)
    case Some(n) => Some(n)
    case None =>
      if k.Month? then Lookup(MONTHS, ToUpper(token), 1)
      else if k.DayOfWeek? then Lookup(DAYS, ToUpper(token), 0)
      else None
  }

  /** One item of a list: every step-th value from lo to hi. */
  datatype Item = Item(lo: nat, hi: nat, step: nat)

  predicate Contains(item: Item, v: int) {
    item.step > 0 && item.lo <= v <= item.hi && (v - item.lo) % item.step == 0
  }

  predicate Fits(k: Kind, item: Item) { Min(k) <= item.lo <= item.hi <= Max(k) }

  /** The text before the first '/', and the step after it. */
  function ReadStep(part: string): Option<(string, int)> {
    var i := IndexOf(part, '/');
    if i == |part| then Some((part, 1))
    else
      match Atoi(part[i + 1..])
      case None => None
      case Some(n) => if n <= 0 then None else Some((part[..i], n))
  }

  function ReadBounds(k: Kind, body: string): Option<(int, int)> {
    if body == "*" then Some((Min(k) as int, Max(k) as int))
    else if '-' in body then
      var i := IndexOf(body, '-');
      assert i < |body|;
      match (Resolve(k, body[..i]), Resolve(k, body[i + 1..]))
      case (Some(lo), Some(hi)) => Some((lo, hi))
      case _ => None
    else
      match Resolve(k, body)
      case Some(v) => Some((v, v))
      case None => None
  }

  /** What an item of a list denotes; None when it is rejected. */
  function ReadItem(k: Kind, part: string): (r: Option<Item>)
    ensures r.Some? ==> Fits(k, r.value) && 0 < r.value.step <= MAX_INT64
  {
    match ReadStep(part)
    case None => None
    case Some((body, step)) =>
      match ReadBounds(k, body)
      case None => None
      case Some((lo, hi)) => if Min(k) <= lo <= hi <= Max(k) then Some(Item(lo, hi, step)) else None
  }

  /** Crash: the step overflows a 64-bit integer and the next shift count is negative. */
  datatype Outcome = Ok | Bad | Crash

  function ItemOutcome(k: Kind, part: string): Outcome {
    match ReadItem(k, part)
    case None => Bad
    case Some(item) => if item.lo + item.step > MAX_INT64 then Crash else Ok
  }

  /** A list is compiled from left to right up to the first item that fails. */
  function ListOutcome(k: Kind, parts: seq<string>): Outcome {
    if parts == [] then Ok
    else if ItemOutcome(k, parts[0]).Ok? then ListOutcome(k, parts[1..])
    else ItemOutcome(k, parts[0])
  }

  function Items(token: string): seq<string> { Split(if token == "?" then "*" else token, ',') }

  predicate ItemAllows(k: Kind, part: string, v: int) {
    var item := ReadItem(k, part);
    item.Some? && Contains(item.value, v)
  }

  predicate ListAllows(k: Kind, parts: seq<string>, v: int) {
    exists part | part in parts :: ItemAllows(k, part, v)
  }

  /** The values a field allows. */
  predicate Allows(k: Kind, token: string, v: int) { ListAllows(k, Items(token), v) }

  lemma {:induction false} OkMeansAllOk(k: Kind, parts: seq<string>)
    ensures ListOutcome(k, parts).Ok? <==> forall p | p in parts :: ItemOutcome(k, p).Ok?
  {
    if parts != [] {
      OkMeansAllOk(k, parts[1..]);
      assert forall p :: p in parts <==> p == parts[0] || p in parts[1..];
    }
  }

  /** No field allows a value outside its range. */
  lemma AllowsInRange(k: Kind, token: string, v: int)
    ensures Allows(k, token, v) ==> Min(k) <= v <= Max(k)
  {
  }

  /** A field that compiles allows something. */
  lemma AcceptedFieldAllows(k: Kind, token: string) returns (v: nat)
    requires ListOutcome(k, Items(token)).Ok?
    ensures Allows(k, token, v)
  {
    var first := Items(token)[0];
    OkMeansAllOk(k, Items(token));
    assert ItemOutcome(k, first).Ok?;
    v := ReadItem(k, first).value.lo;
    assert ItemAllows(k, first, v);
  }

  // ---- ranges that lack a bound ----

  lemma DashEndsNoNumber(token: string)
    requires token != "" && token[|token| - 1] == '-'
    ensures Atoi(token).None?
  {
    var digits := if token[0] == '-' || token[0] == '+' then token[1..] else token;
    assert digits != [] ==> digits[|digits| - 1] == '-';
    assert digits == [] || !AllDigits(digits);
  }

  /** Text that ends in a dash is no number and no name. */
  lemma DashEndsNothing(k: Kind, token: string)
    requires token != "" && token[|token| - 1] == '-'
    ensures Resolve(k, token).None?
  {
    DashEndsNoNumber(token);
    var upper := ToUpper(token);
    assert upper[|upper| - 1] == '-';
    if k.Month? { NotListed(MONTHS, upper, 1); }
    if k.DayOfWeek? { NotListed(DAYS, upper, 0); }
  }

  lemma {:induction false} NotListed(names: seq<string>, name: string, first: int)
    requires name != "" && name[|name| - 1] == '-'
    requires forall n | n in names :: n == "" || n[|n| - 1] != '-'
    ensures Lookup(names, name, first).None?
  {
    if names != [] {
      assert names[0] in names && forall n | n in names[1..] :: n in names;
      NotListed(names[1..], name, first + 1);
    }
  }

  lemma EmptyResolvesNot(k: Kind)
    ensures Resolve(k, "").None?
  {
    assert ToUpper("") == "";
    if k.Month? { EmptyNotListed(MONTHS, 1); }
    if k.DayOfWeek? { EmptyNotListed(DAYS, 0); }
  }

  lemma {:induction false} EmptyNotListed(names: seq<string>, first: int)
    requires forall n | n in names :: n != ""
    ensures Lookup(names, "", first).None?
  {
    if names != [] {
      assert names[0] in names && forall n | n in names[1..] :: n in names;
      EmptyNotListed(names[1..], first + 1);
    }
  }

  lemma StartlessBounds(k: Kind, body: string)
    requires body != "" && body[0] == '-'
    ensures ReadBounds(k, body).None?
  {
    assert IndexOf(body, '-') == 0 && body[..0] == "";
    EmptyResolvesNot(k);
  }

  /** A range without its start is refused, with a step or without. */
  lemma EmptyStartRefused(k: Kind, rest: string)
    ensures ReadItem(k, "-" + rest).None?
  {
    var part := "-" + rest;
    assert part[0] == '-';
    StartlessBounds(k, part);
    var i := IndexOf(part, '/');
    if i < |part| {
      assert i > 0 && part[..i][0] == '-';
      StartlessBounds(k, part[..i]);
    }
  }

  /** A range without its end is refused, with a step or without. */
  lemma EmptyEndRefused(k: Kind, start: string, step: string)
    requires '/' !in start
    ensures ReadItem(k, start + "-").None? && ReadItem(k, start + "-" + "/" + step).None?
  {
    var body := start + "-";
    assert body[|start|] == '-';
    EndlessBounds(k, body);
    NoIndex(body, '/');
    IndexOfFirst(body, '/', step);
    var part := body + ['/'] + step;
    assert part == start + "-" + "/" + step && part[..|body|] == body;
  }

  lemma EndlessBounds(k: Kind, body: string)
    requires body != "" && body[|body| - 1] == '-'
    ensures ReadBounds(k, body).None?
  {
    var i := IndexOf(body, '-');
    assert body[..|body|] == body && body[|body| - 1] in body;
    var end := body[i + 1..];
    if end == "" {
      EmptyResolvesNot(k);
    } else {
      assert end[|end| - 1] == body[|body| - 1];
      DashEndsNothing(k, end);
    }
  }

  // ---- pieces of a field ----

  lemma {:induction false} IndexOfFirst(a: string, c: char, b: string)
    requires c !in a
    ensures IndexOf(a + [c] + b, c) == |a|
  {
    if a != [] {
      assert forall x | x in a[1..] :: x in a;
      assert (a + [c] + b)[1..] == a[1..] + [c] + b;
      assert (a + [c] + b)[0] == a[0];
      IndexOfFirst(a[1..], c, b);
    }
  }

  lemma NoIndex(a: string, c: char)
    requires c !in a
    ensures IndexOf(a, c) == |a|
  {
  }

  lemma SplitFirst(head: string, tail: string, sep: char)
    requires sep !in head
    ensures Split(head + [sep] + tail, sep) == [head] + Split(tail, sep)
  {
    var s := head + [sep] + tail;
    IndexOfFirst(head, sep, tail);
    assert s[..|head|] == head && s[|head| + 1..] == tail;
  }

  lemma SplitOne(head: string, sep: char)
    requires sep !in head
    ensures Split(head, sep) == [head]
  {
  }

  lemma ConsAllows(k: Kind, head: string, rest: seq<string>, v: int)
    ensures ListAllows(k, [head] + rest, v) <==> ItemAllows(k, head, v) || ListAllows(k, rest, v)
    ensures ListOutcome(k, [head] + rest) == if ItemOutcome(k, head).Ok? then ListOutcome(k, rest)
        else ItemOutcome(k, head)
  {
  }

  /** Both spellings of "every value" mean the field's whole range. */
  lemma StarAllowsAll(k: Kind, token: string, v: int)
    requires token == "*" || token == "?"
    ensures Allows(k, token, v) <==> Min(k) <= v <= Max(k)
    ensures ListOutcome(k, Items(token)).Ok?
  {
    NoIndex("*", ',');
    NoIndex("*", '/');
    assert Items(token) == ["*"];
    assert "*" in ["*"];
    assert ReadItem(k, "*") == Some(Item(Min(k), Max(k), 1));
    assert ItemAllows(k, "*", v) <==> Min(k) <= v <= Max(k);
    assert ["*"][1..] == [];
  }
}

/** Masks, compilation and matching. */
module Cron {
  import opened Common
  import opened CronText

  /** A uint64, as the sequence of its bits from the lowest. */
  type Word = w: seq<bool> | |w| == 64 witness seq(64, i => false)

  function Zero(): (w: Word)
    ensures forall i | 0 <= i < 64 :: !w[i]
  {
    seq(64, i => false)
  }

  /** uint64(1) << v; from 64 on nothing is left. */
  function Shifted(v: nat): Word { if v < 64 then Zero()[v := true] else Zero() }

  function Or(a: Word, b: Word): Word { seq(64, i requires 0 <= i < 64 => a[i] || b[i]) }

  function And(a: Word, b: Word): Word { seq(64, i requires 0 <= i < 64 => a[i] && b[i]) }

  predicate Has(mask: Word, v: nat) { And(mask, Shifted(v)) != Zero() }

  lemma HasBit(mask: Word, v: nat)
    ensures Has(mask, v) <==> v < 64 && mask[v]
  {
    var bit := And(mask, Shifted(v));
    if v < 64 && mask[v] {
      assert bit[v] && !Zero()[v];
    } else {
      assert forall i | 0 <= i < 64 :: !bit[i] && !Zero()[i];
      assert bit == Zero();
    }
  }

  /** The values whose bits are set. */
  function Values(mask: Word): set<nat> { set v: nat | v < 64 && Has(mask, v) }

  /** Setting a bit adds one value and no other. */
  lemma SetAdds(mask: Word, v: nat)
    requires v < 64
    ensures Values(Or(mask, Shifted(v))) == Values(mask) + {v}
  {
    forall b: nat | b < 64 ensures Has(Or(mask, Shifted(v)), b) <==> Has(mask, b) || b == v {
      HasBit(mask, b);
      HasBit(Or(mask, Shifted(v)), b);
    }
  }

  lemma ZeroIsEmpty()
    ensures Values(Zero()) == {}
  {
  }

  lemma ModUnique(x: int, q: int, r: int, s: int)
    requires s > 0 && x == q * s + r && 0 <= r < s
    ensures x % s == r
  {
    var d := q - x / s;
    assert d * s == x % s - r;
    assert d >= 1 ==> d * s >= s;
    assert d <= -1 ==> d * s <= -s;
  }

  /** Between two multiples a step apart there is no other. */
  lemma NextMultiple(d: int, j: int, s: int)
    requires s > 0 && d % s == 0 && 0 < j <= s
    ensures (d + j) % s == if j < s then j else 0
  {
    var q := d / s;
    if j < s {
      ModUnique(d + j, q, j, s);
    } else {
      assert d + s == (q + 1) * s;
      ModUnique(d + s, q + 1, 0, s);
    }
  }

  /** Stepping from an allowed value to the next skips no allowed value. */
  lemma Stepped(item: Item, v: int)
    requires item.step > 0 && item.lo <= v && (v - item.lo) % item.step == 0
    ensures (v + item.step - item.lo) % item.step == 0
    ensures forall x | v < x < v + item.step :: !Contains(item, x)
  {
    NextMultiple(v - item.lo, item.step, item.step);
    forall x | v < x < v + item.step ensures !Contains(item, x) {
      NextMultiple(v - item.lo, x - v, item.step);
    }
  }

  /** The item's values below v. */
  function Below(item: Item, v: int): set<nat> { set x: nat | x < 64 && x < v && Contains(item, x) }

  lemma BelowNext(item: Item, v: nat)
    requires item.step > 0 && item.lo <= v <= item.hi < 64 && (v - item.lo) % item.step == 0
    ensures Below(item, v + item.step) == Below(item, v) + {v}
    ensures (v + item.step - item.lo) % item.step == 0
  {
    Stepped(item, v);
    forall x: nat | x < 64 ensures x in Below(item, v + item.step) <==> x in Below(item, v) || x == v {
      assert v < x < v + item.step ==> !Contains(item, x);
    }
  }

  /** The values a list of items allows; all of them are below 64. */
  function Meaning(k: Kind, parts: seq<string>): set<nat> { set v: nat | v < 64 && ListAllows(k, parts, v) }

  lemma MeaningSnoc(k: Kind, front: seq<string>, last: string)
    ensures Meaning(k, front + [last]) == Meaning(k, front) + Meaning(k, [last])
  {
  }

  lemma ItemMeaning(k: Kind, part: string)
    requires ReadItem(k, part).Some?
    ensures var item := ReadItem(k, part).value; Meaning(k, [part]) == Below(item, item.hi + 1)
  {
    var item := ReadItem(k, part).value;
    assert part in [part];
    forall v: nat | v < 64 ensures ListAllows(k, [part], v) <==> v < item.hi + 1 && Contains(item, v) {
      assert ItemAllows(k, part, v) <==> Contains(item, v);
    }
  }

  /** v += step on a 64-bit integer. */
  lemma WrapNext(v: nat, step: nat)
    requires v <= MAX_INT64 && 0 < step <= MAX_INT64
    ensures v + step <= MAX_INT64 ==> Wrap64(v + step) == v + step
    ensures v + step > MAX_INT64 ==> Wrap64(v + step) < 0
  {
  }

  predicate OnGrid(item: Item, v: int) { item.step > 0 && (v - item.lo) % item.step == 0 }

  /** One turn of the step loop: the value is added, and the next one may wrap. */
  lemma FillNext(item: Item, v: nat, was: Word, mask: Word)
    requires 0 < item.step <= MAX_INT64 && item.lo <= v <= item.hi < 64 && OnGrid(item, v)
    requires Values(mask) == Values(was) + Below(item, v)
    ensures Values(Or(mask, Shifted(v))) == Values(was) + Below(item, v + item.step)
    ensures OnGrid(item, v + item.step)
    ensures v + item.step <= MAX_INT64 ==> Wrap64(v + item.step) == v + item.step
    ensures v + item.step > MAX_INT64 ==> Wrap64(v + item.step) < 0
  {
    BelowNext(item, v);
    SetAdds(mask, v);
    WrapNext(v, item.step);
  }

  lemma BelowEnd(item: Item, v: int)
    requires item.hi < v
    ensures Below(item, v) == Below(item, item.hi + 1)
  {
  }

  /** One field under compilation: v is allowed when bit v is set. */
  class FieldSpec {
    const kind: Kind
    var mask: Word

    constructor (kind: Kind)
      ensures this.kind == kind && mask == Zero()
    {
      this.kind := kind;
      mask := Zero();
    }

    method Set(v: nat)
      modifies this
      ensures mask == Or(old(mask), Shifted(v))
    {
      mask := Or(mask, Shifted(v));
    }

    /** The step loop; crashed when v += step wrapped and the next shift panics. */
    method Fill(item: Item) returns (crashed: bool)
      requires item.lo <= item.hi < 64 && 0 < item.step <= MAX_INT64
      modifies this
      ensures crashed <==> item.lo + item.step > MAX_INT64
      ensures !crashed ==> Values(mask) == Values(old(mask)) + Below(item, item.hi + 1)
    {
      ghost var was := mask;
      var v: int := item.lo;
      assert Below(item, v) == {};
      while v <= item.hi
        invariant item.lo <= v <= MAX_INT64 && OnGrid(item, v)
        invariant v > item.lo ==> item.lo + item.step <= v
        invariant Values(mask) == Values(was) + Below(item, v)
        decreases item.hi - v
      {
        FillNext(item, v, was, mask);
        Set(v);
        v := Wrap64(v + item.step);
        if v < 0 { return true; }
      }
      BelowEnd(item, v);
      return false;
    }

    method ParsePart(part: string) returns (outcome: Outcome)
      modifies this
      ensures outcome == ItemOutcome(kind, part)
      ensures outcome.Bad? ==> mask == old(mask)
      ensures outcome.Ok? ==> Values(mask) == Values(old(mask)) + Meaning(kind, [part])
    {
      var read := ReadItem(kind, part);
      if read.None? { return Bad; }
      ItemMeaning(kind, part);
      var crashed := Fill(read.value);
      return if crashed then Crash else Ok;
    }

    /** A field that compiles gains exactly the values its text allows. */
    method Parse(token: string) returns (outcome: Outcome)
      modifies this
      ensures outcome == ListOutcome(kind, Items(token))
      ensures outcome.Ok? ==> Values(mask) == Values(old(mask)) + Meaning(kind, Items(token))
    {
      ghost var was := mask;
      var parts := Items(token);
      var i := 0;
      assert Meaning(kind, []) == {};
      while i < |parts|
        invariant 0 <= i <= |parts|
        invariant ListOutcome(kind, parts) == ListOutcome(kind, parts[i..])
        invariant Values(mask) == Values(was) + Meaning(kind, parts[..i])
      {
        outcome := ParsePart(parts[i]);
        assert parts[i..][1..] == parts[i + 1..];
        if !outcome.Ok? { return; }
        MeaningSnoc(kind, parts[..i], parts[i]);
        assert parts[..i + 1] == parts[..i] + [parts[i]];
        i := i + 1;
      }
      assert parts[..i] == parts;
      return Ok;
    }
  }

  /** A compiled expression. */
  datatype Spec = Spec(minute: Word, hour: Word, dom: Word, month: Word, dow: Word)

  /** The civil reading of an instant; weekday 0 is Sunday. */
  datatype Civil = Civil(minute: nat, hour: nat, day: nat, month: nat, weekday: nat)

  predicate Match(s: Spec, t: Civil) {
    var dow := if t.weekday == 0 && Has(s.dow, 7) then 7 else t.weekday;
    Has(s.minute, t.minute) && Has(s.hour, t.hour) && Has(s.dom, t.day) && Has(s.month, t.month) && Has(s.dow, dow)
  }

  /** What an expression says: every field allows its component, Sunday being 0 or 7. */
  predicate Says(fields: seq<string>, t: Civil)
    requires |fields| == 5
  {
    && Allows(Minute, fields[0], t.minute)
    && Allows(Hour, fields[1], t.hour)
    && Allows(DayOfMonth, fields[2], t.day)
    && Allows(Month, fields[3], t.month)
    && (Allows(DayOfWeek, fields[4], t.weekday) || (t.weekday == 0 && Allows(DayOfWeek, fields[4], 7)))
  }

  /** The kind of the i-th field. */
  function FieldKind(i: nat): Kind {
    match i case 0 => Minute case 1 => Hour case 2 => DayOfMonth case 3 => Month case _ => DayOfWeek
  }

  predicate WithinRange(k: Kind, s: set<nat>) { forall v | v in s :: Min(k) <= v <= Max(k) }

  /** The text is accepted, and the mask holds exactly the values it allows: at least one,
      and all within range. */
  predicate FieldOk(mask: Word, kind: Kind, token: string) {
    && ListOutcome(kind, Items(token)).Ok?
    && Values(mask) == Meaning(kind, Items(token)) && Values(mask) != {} && WithinRange(kind, Values(mask))
  }

  method CompileField(kind: Kind, token: string) returns (outcome: Outcome, mask: Word)
    ensures outcome == ListOutcome(kind, Items(token))
    ensures outcome.Ok? ==> FieldOk(mask, kind, token)
  {
    var f := new FieldSpec(kind);
    ZeroIsEmpty();
    outcome := f.Parse(token);
    mask := f.mask;
    if outcome.Ok? {
      ghost var v := AcceptedFieldAllows(kind, token);
      AllowsInRange(kind, token, v);
      assert v in Meaning(kind, Items(token));
      forall x | x in Values(mask) ensures Min(kind) <= x <= Max(kind) { AllowsInRange(kind, token, x); }
    }
  }

  predicate SpecOk(s: Spec, fields: seq<string>)
    requires |fields| == 5
  {
    && FieldOk(s.minute, Minute, fields[0]) && FieldOk(s.hour, Hour, fields[1]) && FieldOk(s.dom, DayOfMonth, fields[2])
    && FieldOk(s.month, Month, fields[3]) && FieldOk(s.dow, DayOfWeek, fields[4])
  }

  lemma HasMeans(mask: Word, kind: Kind, token: string, v: nat)
    requires FieldOk(mask, kind, token)
    ensures Has(mask, v) <==> Allows(kind, token, v)
  {
    AllowsInRange(kind, token, v);
    HasBit(mask, v);
    assert v in Values(mask) <==> v in Meaning(kind, Items(token));
  }

  /** Compilation preserves meaning: the compiled masks match an instant exactly when the
      text of every field allows its component. */
  lemma MatchSays(s: Spec, fields: seq<string>, t: Civil)
    requires |fields| == 5 && SpecOk(s, fields)
    ensures Match(s, t) <==> Says(fields, t)
  {
    HasMeans(s.minute, Minute, fields[0], t.minute);
    HasMeans(s.hour, Hour, fields[1], t.hour);
    HasMeans(s.dom, DayOfMonth, fields[2], t.day);
    HasMeans(s.month, Month, fields[3], t.month);
    HasMeans(s.dow, DayOfWeek, fields[4], t.weekday);
    HasMeans(s.dow, DayOfWeek, fields[4], 7);
  }

  lemma Assembled(masks: seq<Word>, fields: seq<string>)
    requires |masks| == 5 && |fields| == 5
    requires forall j | 0 <= j < 5 :: FieldOk(masks[j], FieldKind(j), fields[j])
    ensures SpecOk(Spec(masks[0], masks[1], masks[2], masks[3], masks[4]), fields)
  {
  }

  /** The fields are compiled in order; failed is the first that is refused. */
  method CompileFields(fields: seq<string>) returns (outcome: Outcome, masks: seq<Word>, failed: nat)
    requires |fields| == 5
    ensures outcome.Ok? <==> failed == 5
    ensures failed == |masks| <= 5 && forall j | 0 <= j < failed :: FieldOk(masks[j], FieldKind(j), fields[j])
    ensures failed < 5 ==> outcome == ListOutcome(FieldKind(failed), Items(fields[failed]))
  {
    masks := [];
    outcome := Ok;
    failed := 0;
    while failed < 5
      invariant 0 <= failed == |masks| <= 5 && outcome.Ok?
      invariant forall j | 0 <= j < failed :: FieldOk(masks[j], FieldKind(j), fields[j])
    {
      var mask;
      outcome, mask := CompileField(FieldKind(failed), fields[failed]);
      if !outcome.Ok? { return; }
      masks := masks + [mask];
      failed := failed + 1;
    }
  }

  /** An expression is refused for its number of fields, or at the first field that does not
      compile, and otherwise the compiled form matches exactly the instants the text says. */
  method Parse(expr: string) returns (outcome: Outcome, spec: Spec, failed: nat)
    ensures |Fields(expr)| != 5 ==> outcome == Bad
    ensures |Fields(expr)| == 5 && !outcome.Ok? ==>
              && failed < 5 && outcome == ListOutcome(FieldKind(failed), Items(Fields(expr)[failed]))
              && forall j | 0 <= j < failed :: ListOutcome(FieldKind(j), Items(Fields(expr)[j])).Ok?
    ensures outcome.Ok? ==> |Fields(expr)| == 5 && SpecOk(spec, Fields(expr))
    ensures outcome.Ok? ==> forall t :: Match(spec, t) <==> Says(Fields(expr), t)
  {
    var fields := Fields(expr);
    spec := Spec(Zero(), Zero(), Zero(), Zero(), Zero());
    if |fields| != 5 { return Bad, spec, 0; }
    var masks;
    outcome, masks, failed := CompileFields(fields);
    if outcome.Ok? {
      Assembled(masks, fields);
      spec := Spec(masks[0], masks[1], masks[2], masks[3], masks[4]);
      forall t ensures Match(spec, t) <==> Says(fields, t) { MatchSays(spec, fields, t); }
    }
  }
}
