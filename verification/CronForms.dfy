/**
 Writing an expression and reading it back: every form an item can take means what it says,
 a list means the union of its items, and the five fields come back in order.
 */
module CronForms {
  import opened Common
  import opened Strconv
  import opened Text
  import opened CronText
  import opened Cron

  /** A value, by its number or by a name for it. */
  datatype Ref = Number(n: nat) | Name(text: string, n: nat)

  datatype Body = Star | Single(a: Ref) | Range(a: Ref, b: Ref)

  datatype Form = Form(body: Body, step: Option<nat>)

  // ---------------------------------------------------------------------------
  // Names
  // ---------------------------------------------------------------------------

  predicate Capitals(name: string) { name != "" && forall i | 0 <= i < |name| :: 'A' <= name[i] <= 'Z' }

  /** text is the capital-letter name with any of its letters in lower case. */
  predicate SameLetters(text: string, name: string) {
    && |text| == |name|
    && forall i | 0 <= i < |text| :: text[i] == name[i] || text[i] as int == name[i] as int + 32
  }

  predicate NamesMonth(text: string, n: nat) {
    || (n == 1 && SameLetters(text, "JAN")) || (n == 2 && SameLetters(text, "FEB"))
    || (n == 3 && SameLetters(text, "MAR")) || (n == 4 && SameLetters(text, "APR"))
    || (n == 5 && SameLetters(text, "MAY")) || (n == 6 && SameLetters(text, "JUN"))
    || (n == 7 && SameLetters(text, "JUL")) || (n == 8 && SameLetters(text, "AUG"))
    || (n == 9 && SameLetters(text, "SEP")) || (n == 10 && SameLetters(text, "OCT"))
    || (n == 11 && SameLetters(text, "NOV")) || (n == 12 && SameLetters(text, "DEC"))
  }

  predicate NamesDay(text: string, n: nat) {
    || (n == 0 && SameLetters(text, "SUN")) || (n == 1 && SameLetters(text, "MON"))
    || (n == 2 && SameLetters(text, "TUE")) || (n == 3 && SameLetters(text, "WED"))
    || (n == 4 && SameLetters(text, "THU")) || (n == 5 && SameLetters(text, "FRI"))
    || (n == 6 && SameLetters(text, "SAT"))
  }

  predicate Letters(s: string) { s != "" && forall i | 0 <= i < |s| :: 'A' <= s[i] <= 'Z' || 'a' <= s[i] <= 'z' }

  lemma LettersNoNumber(s: string)
    requires Letters(s)
    ensures Atoi(s).None?
  {
    assert !IsDigit(s[0]);
  }

  lemma UpperOf(text: string, name: string)
    requires Capitals(name) && SameLetters(text, name)
    ensures ToUpper(text) == name && Letters(text)
  {
  }

  lemma {:induction false} LookupAt(names: seq<string>, i: nat, first: int)
    requires i < |names| && forall j | 0 <= j < i :: names[j] != names[i]
    ensures Lookup(names, names[i], first) == Some(first + i)
  {
    if i > 0 { LookupAt(names[1..], i - 1, first + 1); }
  }

  predicate Table(names: seq<string>) {
    && (forall i | 0 <= i < |names| :: Capitals(names[i]))
    && (forall i, j | 0 <= i < j < |names| :: names[i] != names[j])
  }

  lemma MonthsOk()
    ensures Table(MONTHS) && |MONTHS| == 12
  {
  }

  lemma DaysOk()
    ensures Table(DAYS) && |DAYS| == 7
  {
  }

  lemma EntryResolves(names: seq<string>, i: nat, text: string, first: int)
    requires Table(names) && i < |names| && SameLetters(text, names[i])
    ensures Lookup(names, ToUpper(text), first) == Some(first + i) && Letters(text) && Atoi(text).None?
  {
    UpperOf(text, names[i]);
    LookupAt(names, i, first);
    LettersNoNumber(text);
  }

  lemma MonthEntry(text: string, n: nat)
    requires NamesMonth(text, n)
    ensures 1 <= n <= |MONTHS| && SameLetters(text, MONTHS[n - 1])
  {
  }

  lemma DayEntry(text: string, n: nat)
    requires NamesDay(text, n)
    ensures n < |DAYS| && SameLetters(text, DAYS[n])
  {
  }

  /** The names of the months, in any case, stand for their numbers. */
  lemma MonthResolves(text: string, n: nat)
    requires NamesMonth(text, n)
    ensures Resolve(Month, text) == Some(n) && Letters(text)
  {
    MonthEntry(text, n);
    MonthsOk();
    EntryResolves(MONTHS, n - 1, text, 1);
  }

  /** And so do the names of the days. */
  lemma DayResolves(text: string, n: nat)
    requires NamesDay(text, n)
    ensures Resolve(DayOfWeek, text) == Some(n) && Letters(text)
  {
    DayEntry(text, n);
    DaysOk();
    EntryResolves(DAYS, n, text, 0);
  }

  // ---------------------------------------------------------------------------
  // Items
  // ---------------------------------------------------------------------------

  /** A number that fits 64 bits, or a name the field knows. */
  predicate Writable(k: Kind, r: Ref) {
    match r
    case Number(n) => n <= MAX_INT64
    case Name(text, n) => (k.Month? && NamesMonth(text, n)) || (k.DayOfWeek? && NamesDay(text, n))
  }

  predicate FormWritable(k: Kind, f: Form) {
    && (f.step.Some? ==> f.step.value <= MAX_INT64)
    && (f.body.Single? ==> Writable(k, f.body.a))
    && (f.body.Range? ==> Writable(k, f.body.a) && Writable(k, f.body.b))
  }

  function SpellRef(r: Ref): string { if r.Number? then FormatInt(r.n) else r.text }

  function SpellBody(b: Body): string {
    match b
    case Star => "*"
    case Single(a) => SpellRef(a)
    case Range(a, b) => SpellRef(a) + "-" + SpellRef(b)
  }

  function SpellForm(f: Form): string {
    if f.step.None? then SpellBody(f.body) else SpellBody(f.body) + "/" + FormatInt(f.step.value)
  }

  function Lowest(k: Kind, b: Body): nat { if b.Star? then Min(k) else b.a.n }

  function Highest(k: Kind, b: Body): nat {
    match b case Star => Max(k) case Single(a) => a.n case Range(_, c) => c.n
  }

  /** The values a form stands for; None when they are out of the field's range or the step is zero. */
  function Denotes(k: Kind, f: Form): Option<Item> {
    var lo, hi := Lowest(k, f.body), Highest(k, f.body);
    var step := if f.step.Some? then f.step.value else 1;
    if Min(k) <= lo <= hi <= Max(k) && step > 0 then Some(Item(lo, hi, step)) else None
  }

  /** Digits and letters. */
  predicate Wordy(s: string) {
    s != "" && forall i | 0 <= i < |s| :: IsDigit(s[i]) || 'A' <= s[i] <= 'Z' || 'a' <= s[i] <= 'z'
  }

  lemma RefReads(k: Kind, r: Ref)
    requires Writable(k, r)
    ensures Resolve(k, SpellRef(r)) == Some(r.n) && Wordy(SpellRef(r))
  {
    if r.Number? {
      AtoiFormat(r.n);
    } else if k.Month? {
      MonthResolves(r.text, r.n);
    } else {
      DayResolves(r.text, r.n);
    }
  }

  /** Text that stays one word of one field, and one item of a list. */
  predicate Inert(s: string) {
    s != "" && s != "?" && forall c | c in s :: c != ',' && !IsSpace(c)
  }

  lemma WordyIsInert(s: string)
    requires Wordy(s)
    ensures Inert(s) && '/' !in s && '-' !in s && s != "*"
  {
    assert forall c | c in s :: IsDigit(c) || 'A' <= c <= 'Z' || 'a' <= c <= 'z';
    assert s[0] in s;
  }

  lemma InertJoin(a: string, c: char, b: string)
    requires Inert(a) && Inert(b) && c != ',' && !IsSpace(c)
    ensures Inert(a + [c] + b)
  {
    assert |a + [c] + b| > 1;
  }

  lemma SingleReads(k: Kind, r: Ref)
    requires Writable(k, r)
    ensures ReadBounds(k, SpellRef(r)) == Some((r.n, r.n))
  {
    RefReads(k, r);
    WordyIsInert(SpellRef(r));
  }

  lemma RangeReads(k: Kind, a: Ref, b: Ref)
    requires Writable(k, a) && Writable(k, b)
    ensures ReadBounds(k, SpellRef(a) + "-" + SpellRef(b)) == Some((a.n, b.n))
  {
    RefReads(k, a);
    RefReads(k, b);
    var x, y := SpellRef(a), SpellRef(b);
    WordyIsInert(x);
    var s := x + ['-'] + y;
    IndexOfFirst(x, '-', y);
    assert s[..|x|] == x && s[|x| + 1..] == y && s[|x|] == '-';
    assert |s| > 1;
  }

  lemma BodyReads(k: Kind, b: Body)
    requires FormWritable(k, Form(b, None))
    ensures ReadBounds(k, SpellBody(b)) == Some((Lowest(k, b) as int, Highest(k, b) as int))
  {
    match b
    case Star =>
    case Single(a) => SingleReads(k, a);
    case Range(a, c) => RangeReads(k, a, c);
  }

  lemma BodyIsInert(k: Kind, b: Body)
    requires FormWritable(k, Form(b, None))
    ensures Inert(SpellBody(b)) && '/' !in SpellBody(b)
  {
    match b
    case Star =>
    case Single(a) =>
      RefReads(k, a);
      WordyIsInert(SpellRef(a));
    case Range(a, c) =>
      RefReads(k, a);
      RefReads(k, c);
      WordyIsInert(SpellRef(a));
      WordyIsInert(SpellRef(c));
      InertJoin(SpellRef(a), '-', SpellRef(c));
  }

  lemma StepReads(body: string, step: nat)
    requires '/' !in body && step <= MAX_INT64
    ensures ReadStep(body) == Some((body, 1))
    ensures ReadStep(body + "/" + FormatInt(step)) == if step > 0 then Some((body, step)) else None
  {
    var text := FormatInt(step);
    var s := body + ['/'] + text;
    NoIndex(body, '/');
    IndexOfFirst(body, '/', text);
    AtoiFormat(step);
    assert s[..|body|] == body && s[|body| + 1..] == text;
  }

  lemma FormIsInert(k: Kind, f: Form)
    requires FormWritable(k, f)
    ensures Inert(SpellForm(f))
  {
    BodyIsInert(k, f.body);
    if f.step.Some? {
      WordyIsInert(FormatInt(f.step.value));
      InertJoin(SpellBody(f.body), '/', FormatInt(f.step.value));
    }
  }

  lemma ItemOf(k: Kind, part: string, body: string, step: nat, lo: nat, hi: nat)
    requires ReadStep(part) == (if step > 0 then Some((body, step)) else None)
    requires ReadBounds(k, body) == Some((lo, hi))
    ensures ReadItem(k, part) == if Min(k) <= lo <= hi <= Max(k) && step > 0 then Some(Item(lo, hi, step)) else None
  {
  }

  /** Every form of an item is read as exactly what it says, or refused. */
  lemma FormReads(k: Kind, f: Form)
    requires FormWritable(k, f)
    ensures ReadItem(k, SpellForm(f)) == Denotes(k, f)
  {
    var body, step := SpellBody(f.body), if f.step.Some? then f.step.value else 1;
    BodyReads(k, f.body);
    BodyIsInert(k, f.body);
    StepReads(body, step);
    ItemOf(k, SpellForm(f), body, step, Lowest(k, f.body), Highest(k, f.body));
  }

  // ---------------------------------------------------------------------------
  // Lists
  // ---------------------------------------------------------------------------

  predicate AllWritable(k: Kind, forms: seq<Form>) { forall f | f in forms :: FormWritable(k, f) }

  function SpellList(forms: seq<Form>): string
    requires forms != []
  {
    if |forms| == 1 then SpellForm(forms[0]) else SpellForm(forms[0]) + "," + SpellList(forms[1..])
  }

  function Texts(forms: seq<Form>): seq<string> {
    if forms == [] then [] else [SpellForm(forms[0])] + Texts(forms[1..])
  }

  /** v is one of the values some item of the list stands for. */
  predicate Covers(k: Kind, forms: seq<Form>, v: int) {
    exists f :: f in forms && Denotes(k, f).Some? && Contains(Denotes(k, f).value, v)
  }

  /** Every item stands for something, and no step leaves the 64-bit range. */
  predicate Compiles(k: Kind, forms: seq<Form>) {
    forall f | f in forms :: Denotes(k, f).Some? && Denotes(k, f).value.lo + Denotes(k, f).value.step <= MAX_INT64
  }

  lemma {:induction false} SplitList(k: Kind, forms: seq<Form>)
    requires forms != [] && AllWritable(k, forms)
    ensures Split(SpellList(forms), ',') == Texts(forms)
  {
    var head := SpellForm(forms[0]);
    FormIsInert(k, forms[0]);
    if |forms| == 1 {
      SplitOne(head, ',');
      assert Texts(forms[1..]) == [];
    } else {
      SplitFirst(head, SpellList(forms[1..]), ',');
      SplitList(k, forms[1..]);
    }
  }

  lemma {:induction false} ListIsWord(k: Kind, forms: seq<Form>)
    requires forms != [] && AllWritable(k, forms)
    ensures OneWord(SpellList(forms)) && SpellList(forms) != "?"
  {
    FormIsInert(k, forms[0]);
    if |forms| > 1 {
      ListIsWord(k, forms[1..]);
      assert |SpellList(forms)| > 1;
    }
  }

  lemma {:induction false} TextsMean(k: Kind, forms: seq<Form>, v: int)
    requires AllWritable(k, forms)
    ensures ListAllows(k, Texts(forms), v) <==> Covers(k, forms, v)
  {
    if forms != [] {
      var first, rest := forms[0], forms[1..];
      FormReads(k, first);
      TextsMean(k, rest, v);
      ConsAllows(k, SpellForm(first), Texts(rest), v);
      assert forall f :: f in forms <==> f == first || f in rest;
      assert ItemAllows(k, SpellForm(first), v) <==>
          Denotes(k, first).Some? && Contains(Denotes(k, first).value, v);
    }
  }

  lemma {:induction false} TextsCompile(k: Kind, forms: seq<Form>)
    requires AllWritable(k, forms)
    ensures ListOutcome(k, Texts(forms)).Ok? <==> Compiles(k, forms)
  {
    if forms != [] {
      var first, rest := forms[0], forms[1..];
      FormReads(k, first);
      TextsCompile(k, rest);
      ConsAllows(k, SpellForm(first), Texts(rest), 0);
      assert forall f :: f in forms <==> f == first || f in rest;
    }
  }

  /**
   The text of any list of items, single values, ranges and stars, with steps or without, by
   number or by name, is accepted exactly when each item stands for something and no step
   overflows, and then means their union.
   */
  lemma ListRoundTrip(k: Kind, forms: seq<Form>, v: int)
    requires forms != [] && AllWritable(k, forms)
    ensures Allows(k, SpellList(forms), v) <==> Covers(k, forms, v)
    ensures ListOutcome(k, Items(SpellList(forms))).Ok? <==> Compiles(k, forms)
  {
    ListIsWord(k, forms);
    SplitList(k, forms);
    TextsMean(k, forms, v);
    TextsCompile(k, forms);
  }

  /** The range of each field, written out. */
  predicate InField(k: Kind, v: int) {
    match k
    case Minute => 0 <= v <= 59
    case Hour => 0 <= v <= 23
    case DayOfMonth => 1 <= v <= 31
    case Month => 1 <= v <= 12
    case DayOfWeek => 0 <= v <= 7
  }

  lemma OneFormMeans(k: Kind, f: Form, v: int)
    requires FormWritable(k, f)
    ensures Allows(k, SpellForm(f), v) <==> Denotes(k, f).Some? && Contains(Denotes(k, f).value, v)
  {
    ListRoundTrip(k, [f], v);
    assert forall g :: g in [f] <==> g == f;
    assert SpellList([f]) == SpellForm(f);
  }

  lemma OneValue(k: Kind, n: nat, step: nat, v: int)
    requires step > 0
    ensures Contains(Item(n, n, step), v) <==> v == n
    ensures Min(k) <= n <= Max(k) <==> InField(k, n)
  {
  }

  /** A number alone allows that value and no other, when it is in range. */
  lemma NumberAllowsItself(k: Kind, n: nat, v: int)
    requires n <= MAX_INT64
    ensures Allows(k, FormatInt(n), v) <==> InField(k, n) && v == n
  {
    OneFormMeans(k, Form(Single(Number(n)), None), v);
    OneValue(k, n, 1, v);
  }

  /** And so it does with a step. */
  lemma SteppedNumberAllowsItself(k: Kind, n: nat, step: nat, v: int)
    requires n <= MAX_INT64 && 0 < step <= MAX_INT64
    ensures Allows(k, FormatInt(n) + "/" + FormatInt(step), v) <==> InField(k, n) && v == n
  {
    OneFormMeans(k, Form(Single(Number(n)), Some(step)), v);
    OneValue(k, n, step, v);
  }

  // ---------------------------------------------------------------------------
  // Expressions
  // ---------------------------------------------------------------------------

  /** Without blanks. */
  predicate OneWord(s: string) { s != "" && forall i | 0 <= i < |s| :: !IsSpace(s[i]) }

  /** Each word followed by its gap. */
  function Joined(words: seq<string>, gaps: seq<string>): string
    requires |gaps| == |words|
  {
    if words == [] then "" else words[0] + gaps[0] + Joined(words[1..], gaps[1..])
  }

  /** Blanks between the words, and perhaps after the last. */
  predicate Apart(words: seq<string>, gaps: seq<string>) {
    && |gaps| == |words|
    && (forall i | 0 <= i < |words| :: OneWord(words[i]) && Blank(gaps[i]))
    && (forall i | 0 <= i < |words| - 1 :: gaps[i] != "")
  }

  lemma {:induction false} TrimLeftSkips(lead: string, rest: string)
    requires Blank(lead) && (rest == "" || !IsSpace(rest[0]))
    ensures TrimLeft(lead + rest) == rest
  {
    if lead == "" {
      assert lead + rest == rest;
    } else {
      assert (lead + rest)[0] == lead[0] && (lead + rest)[1..] == lead[1..] + rest;
      TrimLeftSkips(lead[1..], rest);
    }
  }

  lemma {:induction false} SpaceAfterWord(word: string, rest: string)
    requires (forall i | 0 <= i < |word| :: !IsSpace(word[i])) && (rest == "" || IsSpace(rest[0]))
    ensures SpaceIndex(word + rest) == |word|
  {
    if word == "" {
      assert word + rest == rest;
    } else {
      assert (word + rest)[0] == word[0] && (word + rest)[1..] == word[1..] + rest;
      SpaceAfterWord(word[1..], rest);
    }
  }

  /** Words with blanks around and between them come back as they are, in order. */
  lemma {:induction false} FieldsOfJoined(lead: string, words: seq<string>, gaps: seq<string>)
    requires Blank(lead) && Apart(words, gaps)
    ensures Fields(lead + Joined(words, gaps)) == words
    decreases |words|
  {
    var text := Joined(words, gaps);
    if words == [] {
      TrimLeftSkips(lead, "");
    } else {
      var rest := gaps[0] + Joined(words[1..], gaps[1..]);
      assert text == words[0] + rest;
      TrimLeftSkips(lead, text);
      assert |words| == 1 ==> Joined(words[1..], gaps[1..]) == "";
      SpaceAfterWord(words[0], rest);
      assert text[..|words[0]|] == words[0] && text[|words[0]|..] == rest;
      FieldsOfJoined(gaps[0], words[1..], gaps[1..]);
    }
  }

  /** The lists of an expression, spelled. */
  function SpellAll(lists: seq<seq<Form>>): seq<string>
    requires forall i | 0 <= i < |lists| :: lists[i] != []
  {
    seq(|lists|, i requires 0 <= i < |lists| => SpellList(lists[i]))
  }

  /** Five lists, each written for its field. */
  predicate Expression(lists: seq<seq<Form>>) {
    |lists| == 5 && forall i | 0 <= i < 5 :: lists[i] != [] && AllWritable(FieldKind(i), lists[i])
  }

  lemma ExpressionFields(lists: seq<seq<Form>>, lead: string, gaps: seq<string>)
    requires Expression(lists) && Blank(lead) && |gaps| == 5
    requires (forall i | 0 <= i < 5 :: Blank(gaps[i])) && forall i | 0 <= i < 4 :: gaps[i] != ""
    ensures Fields(lead + Joined(SpellAll(lists), gaps)) == SpellAll(lists)
  {
    var words := SpellAll(lists);
    forall i | 0 <= i < 5 ensures OneWord(words[i]) { ListIsWord(FieldKind(i), lists[i]); }
    FieldsOfJoined(lead, words, gaps);
  }

  lemma FieldMeans(lists: seq<seq<Form>>, i: nat, v: int)
    requires Expression(lists) && i < 5
    ensures Allows(FieldKind(i), SpellAll(lists)[i], v) <==> Covers(FieldKind(i), lists[i], v)
  {
    ListRoundTrip(FieldKind(i), lists[i], v);
  }

  /**
   A whole expression: five lists, written out with any blanks around them, say exactly the
   instants whose minute, hour, day, month and weekday their lists cover, Sunday being 0 or 7.
   */
  lemma ExpressionMeans(lists: seq<seq<Form>>, lead: string, gaps: seq<string>, t: Civil)
    requires Expression(lists) && Blank(lead) && |gaps| == 5
    requires (forall i | 0 <= i < 5 :: Blank(gaps[i])) && forall i | 0 <= i < 4 :: gaps[i] != ""
    ensures var fields := Fields(lead + Joined(SpellAll(lists), gaps));
            && |fields| == 5
            && (Says(fields, t) <==>
                  && Covers(Minute, lists[0], t.minute) && Covers(Hour, lists[1], t.hour)
                  && Covers(DayOfMonth, lists[2], t.day) && Covers(Month, lists[3], t.month)
                  && (Covers(DayOfWeek, lists[4], t.weekday)
                      || (t.weekday == 0 && Covers(DayOfWeek, lists[4], 7))))
  {
    ExpressionFields(lists, lead, gaps);
    FieldMeans(lists, 0, t.minute);
    FieldMeans(lists, 1, t.hour);
    FieldMeans(lists, 2, t.day);
    FieldMeans(lists, 3, t.month);
    FieldMeans(lists, 4, t.weekday);
    FieldMeans(lists, 4, 7);
  }
}
