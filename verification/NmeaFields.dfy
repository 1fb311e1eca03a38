/**
 The comma-separated fields of an NMEA sentence: rendered with a comma logic
 that looks at what was written last, and read back by position.  The position
 sentence GLL is one instance; fields are text or numbers.
 */
module NmeaFields {
  import opened Common
  import opened Texts

  /** A field value.  How numbers are written and read is a parameter of the operations. */
  datatype Cell<F> = Text(s: string) | Number(x: F)

  datatype Kind = TextKind | NumberKind

  /** The schema of the GLL sentence. */
  const GLL: seq<Kind> := [NumberKind, TextKind, NumberKind, TextKind, NumberKind, TextKind, TextKind]

  datatype Numerals<!F> = Numerals(format: F -> string, parse: string -> Option<F>)

  function Shown<F>(num: Numerals<F>, c: Cell<F>): (s: string) {
    match c
    case Text(s) => s
    case Number(x) => num.format(x)
  }

  predicate HasKind<F>(c: Cell<F>, k: Kind) {
    c.Text? <==> k.TextKind?
  }

  /** Trimming one comma would make it shorter. */
  predicate EndsInComma(s: string) {
    |s| >= 1 && s[|s| - 1] == ','
  }

  /** Trimming two commas would make it shorter. */
  predicate EndsInCommas(s: string) {
    |s| >= 2 && s[|s| - 1] == ',' && s[|s| - 2] == ','
  }

  // ---------- encoding ----------

  /** Appending a field that has a value. */
  function Present(raw: string, text: string): (r: string) {
    if EndsInComma(raw) then raw + text else raw + "," + text
  }

  /** Appending a field that has none; the last field is just left out. */
  function Absent(raw: string): (r: string) {
    if EndsInCommas(raw) then raw + "," else raw + ",,"
  }

  /** The field part of `Encode`. */
  method Encode<F>(num: Numerals<F>, head: string, cells: seq<Option<Cell<F>>>) returns (raw: string)
    ensures raw == Encoded(num, head, cells)
  {
    raw := head;
    for i := 0 to |cells|
      invariant raw == Written(num, head, cells, i)
    {
      if cells[i].Some? {
        if EndsInComma(raw) {
          raw := raw + Shown(num, cells[i].value);
        } else {
          raw := raw + "," + Shown(num, cells[i].value);
        }
      } else if i < |cells| - 1 {
        if EndsInCommas(raw) {
          raw := raw + ",";
        } else {
          raw := raw + ",,";
        }
      }
    }
  }

  /** What has been written after `i` fields. */
  function Written<F>(num: Numerals<F>, head: string, cells: seq<Option<Cell<F>>>, i: nat): (raw: string)
    requires i <= |cells|
  {
    if i == 0 then head
    else
      var raw := Written(num, head, cells, i - 1);
      match cells[i - 1]
      case Some(c) => Present(raw, Shown(num, c))
      case None => if i < |cells| then Absent(raw) else raw
  }

  function Encoded<F>(num: Numerals<F>, head: string, cells: seq<Option<Cell<F>>>): (raw: string) {
    Written(num, head, cells, |cells|)
  }

  /** The text of a field, empty when it has no value. */
  function TextOf<F>(num: Numerals<F>, c: Option<Cell<F>>): (s: string) {
    if c.Some? then Shown(num, c.value) else ""
  }

  /** The plain form: every field after its own comma. */
  function Plain<F>(num: Numerals<F>, head: string, cells: seq<Option<Cell<F>>>, i: nat): (raw: string)
    requires i <= |cells|
  {
    if i == 0 then head else Plain(num, head, cells, i - 1) + "," + TextOf(num, cells[i - 1])
  }

  /** A cell whose text can be told from its surroundings. */
  predicate Legible<F>(num: Numerals<F>, c: Cell<F>) {
    Shown(num, c) != "" && Without(Shown(num, c), ',')
  }

  ghost predicate AllLegible<F>(num: Numerals<F>, cells: seq<Option<Cell<F>>>) {
    forall i :: 0 <= i < |cells| && cells[i].Some? ==> Legible(num, cells[i].value)
  }

  predicate EndsPlain(s: string) {
    s != "" && s[|s| - 1] != ','
  }

  /** What has been written and what the plain form has differ by the comma of the next field, after an absent one. */
  ghost predicate Ahead(raw: string, plain: string, absent: bool) {
    if absent then raw == plain + "," && EndsInCommas(raw) else raw == plain && EndsPlain(raw)
  }

  lemma PresentStep(raw: string, plain: string, absent: bool, text: string)
    requires Ahead(raw, plain, absent) && text != "" && Without(text, ',')
    ensures Ahead(Present(raw, text), plain + "," + text, false)
  {
    assert text[|text| - 1] in text;
  }

  lemma AbsentStep(raw: string, plain: string, absent: bool)
    requires Ahead(raw, plain, absent)
    ensures Ahead(Absent(raw), plain + "," + "", true)
  {
    assert Absent(raw) == plain + "," + "" + ",";
  }

  /**
   What the comma logic amounts to: the plain form, with the comma of the next
   field written already when a field is absent.
   */
  lemma {:induction false} WrittenIsPlain<F>(num: Numerals<F>, head: string, cells: seq<Option<Cell<F>>>, i: nat)
    requires i < |cells| && AllLegible(num, cells) && EndsPlain(head)
    ensures Ahead(Written(num, head, cells, i), Plain(num, head, cells, i), i > 0 && cells[i - 1].None?)
  {
    if i > 0 {
      WrittenIsPlain(num, head, cells, i - 1);
      var raw, plain, absent := Written(num, head, cells, i - 1), Plain(num, head, cells, i - 1), i > 1 && cells[i - 2].None?;
      if cells[i - 1].Some? {
        PresentStep(raw, plain, absent, Shown(num, cells[i - 1].value));
      } else {
        AbsentStep(raw, plain, absent);
      }
    }
  }

  /** How many fields come out: a last field without value after one with a value is left out. */
  function Shipped<F>(cells: seq<Option<Cell<F>>>): (n: nat)
    ensures n <= |cells|
  {
    var n := |cells|;
    if n > 0 && cells[n - 1].None? && (n == 1 || cells[n - 2].Some?) then n - 1 else n
  }

  /** The fast form is the plain form, but for that field. */
  lemma EncodedIsPlain<F>(num: Numerals<F>, head: string, cells: seq<Option<Cell<F>>>)
    requires AllLegible(num, cells) && EndsPlain(head)
    ensures Encoded(num, head, cells) == Plain(num, head, cells, Shipped(cells))
  {
    var n := |cells|;
    if n > 0 {
      WrittenIsPlain(num, head, cells, n - 1);
      var raw, plain, absent := Written(num, head, cells, n - 1), Plain(num, head, cells, n - 1), n > 1 && cells[n - 2].None?;
      if cells[n - 1].Some? {
        PresentStep(raw, plain, absent, Shown(num, cells[n - 1].value));
        assert Encoded(num, head, cells) == Present(raw, Shown(num, cells[n - 1].value));
      } else {
        assert Encoded(num, head, cells) == raw;
        assert absent ==> Plain(num, head, cells, n) == plain + ",";
      }
    }
  }

  // ---------- splitting ----------

  function TextsOf<F>(num: Numerals<F>, cells: seq<Option<Cell<F>>>, i: nat): (ts: seq<string>)
    requires i <= |cells|
    ensures |ts| == i && forall k :: 0 <= k < i ==> ts[k] == TextOf(num, cells[k])
  {
    seq(i, k requires 0 <= k < i => TextOf(num, cells[k]))
  }

  lemma NextText<F>(num: Numerals<F>, head: string, cells: seq<Option<Cell<F>>>, i: nat)
    requires i < |cells| && AllLegible(num, cells)
    ensures Without(TextOf(num, cells[i]), ',')
    ensures [head] + TextsOf(num, cells, i) + [TextOf(num, cells[i])] == [head] + TextsOf(num, cells, i + 1)
  {
    if cells[i].Some? {
      assert Legible(num, cells[i].value);
    }
  }

  lemma {:induction false} SplitPlainForm<F>(num: Numerals<F>, head: string, cells: seq<Option<Cell<F>>>, i: nat)
    requires i <= |cells| && AllLegible(num, cells) && Without(head, ',')
    ensures Split(Plain(num, head, cells, i), ',') == [head] + TextsOf(num, cells, i)
  {
    if i == 0 {
      SplitPlain(head, ',');
    } else {
      SplitPlainForm(num, head, cells, i - 1);
      NextText(num, head, cells, i - 1);
      SplitAppends(Plain(num, head, cells, i - 1), TextOf(num, cells[i - 1]), ',');
    }
  }

  // ---------- parsing ----------

  /** Reading a non-empty field text; a number may fail to parse. */
  function Read<F>(num: Numerals<F>, kind: Kind, text: string): (c: Option<Cell<F>>) {
    if kind.TextKind? then Some(Text(text))
    else match num.parse(text)
      case Some(x) => Some(Number(x))
      case None => None
  }

  /** `fields` read by position, as far as they go; None is an error, a field without value is None within. */
  function Parsed<F>(num: Numerals<F>, schema: seq<Kind>, fields: seq<string>): (r: Option<seq<Option<Cell<F>>>>) {
    if exists i :: 0 <= i < |schema| && Fails(num, schema, fields, i) then None
    else Some(seq(|schema|, i requires 0 <= i < |schema| => ValueAt(num, schema, fields, i)))
  }

  predicate Fails<F>(num: Numerals<F>, schema: seq<Kind>, fields: seq<string>, i: nat)
    requires i < |schema|
  {
    i < |fields| && fields[i] != "" && Read(num, schema[i], fields[i]).None?
  }

  function ValueAt<F>(num: Numerals<F>, schema: seq<Kind>, fields: seq<string>, i: nat): (c: Option<Cell<F>>)
    requires i < |schema|
  {
    if i < |fields| && fields[i] != "" then Read(num, schema[i], fields[i]) else None
  }

  /** The field part of `parse`: it stops where the fields run out. */
  method Parse<F>(num: Numerals<F>, schema: seq<Kind>, fields: seq<string>) returns (r: Option<seq<Option<Cell<F>>>>)
    ensures r == Parsed(num, schema, fields)
  {
    var cells: seq<Option<Cell<F>>> := seq(|schema|, _ => None);
    for i := 0 to |schema|
      invariant |cells| == |schema| && i <= |fields|
      invariant forall k :: 0 <= k < i ==> !Fails(num, schema, fields, k) && cells[k] == ValueAt(num, schema, fields, k)
      invariant forall k :: i <= k < |schema| ==> cells[k] == None
    {
      if |fields| == i {
        assert forall k :: i <= k < |schema| ==> !Fails(num, schema, fields, k) && cells[k] == ValueAt(num, schema, fields, k);
        break;
      }
      if fields[i] != "" {
        var c := Read(num, schema[i], fields[i]);
        if c.None? {
          assert Fails(num, schema, fields, i);
          return None;
        }
        cells := cells[i := c];
      }
    }
    assert cells == seq(|schema|, i requires 0 <= i < |schema| => ValueAt(num, schema, fields, i));
    return Some(cells);
  }

  // ---------- round trip ----------

  ghost predicate HasKinds<F>(schema: seq<Kind>, cells: seq<Option<Cell<F>>>) {
    |cells| == |schema| && forall i :: 0 <= i < |cells| && cells[i].Some? ==> HasKind(cells[i].value, schema[i])
  }

  /** Numbers that come back from their text. */
  ghost predicate Readable<F>(num: Numerals<F>, cells: seq<Option<Cell<F>>>) {
    forall i :: 0 <= i < |cells| && cells[i].Some? && cells[i].value.Number? ==>
      num.parse(num.format(cells[i].value.x)) == Some(cells[i].value.x)
  }

  lemma CellComesBack<F>(num: Numerals<F>, schema: seq<Kind>, cells: seq<Option<Cell<F>>>, n: nat, i: nat)
    requires HasKinds(schema, cells) && AllLegible(num, cells) && Readable(num, cells)
    requires i < |schema| && (n == |cells| || (n == |cells| - 1 && cells[n].None?))
    ensures !Fails(num, schema, TextsOf(num, cells, n), i)
    ensures ValueAt(num, schema, TextsOf(num, cells, n), i) == cells[i]
  {
    if cells[i].Some? {
      assert Legible(num, cells[i].value) && HasKind(cells[i].value, schema[i]);
    }
  }

  /** Every sentence body comes back from its text, for any schema: the comma logic loses no field and shifts none. */
  lemma FieldsRoundTrip<F>(num: Numerals<F>, head: string, schema: seq<Kind>, cells: seq<Option<Cell<F>>>)
    requires HasKinds(schema, cells) && AllLegible(num, cells) && Readable(num, cells)
    requires EndsPlain(head) && Without(head, ',')
    ensures Split(Encoded(num, head, cells), ',')[0] == head
    ensures Parsed(num, schema, Split(Encoded(num, head, cells), ',')[1..]) == Some(cells)
  {
    var n := Shipped(cells);
    EncodedIsPlain(num, head, cells);
    SplitPlainForm(num, head, cells, n);
    assert ([head] + TextsOf(num, cells, n))[1..] == TextsOf(num, cells, n);
    forall i | 0 <= i < |schema|
      ensures !Fails(num, schema, TextsOf(num, cells, n), i) && ValueAt(num, schema, TextsOf(num, cells, n), i) == cells[i]
    {
      CellComesBack(num, schema, cells, n, i);
    }
    assert cells == seq(|schema|, i requires 0 <= i < |schema| => ValueAt(num, schema, TextsOf(num, cells, n), i));
  }

  /** What is before the head stays before it. */
  lemma {:induction false} PlainAfter<F>(num: Numerals<F>, before: string, head: string, cells: seq<Option<Cell<F>>>, i: nat)
    requires i <= |cells|
    ensures Plain(num, before + head, cells, i) == before + Plain(num, head, cells, i)
  {
    if i > 0 {
      PlainAfter(num, before, head, cells, i - 1);
    }
  }

  lemma {:induction false} PlainStarts<F>(num: Numerals<F>, head: string, cells: seq<Option<Cell<F>>>, i: nat)
    requires 1 <= i <= |cells|
    ensures |Plain(num, head, cells, i)| > |head| && Plain(num, head, cells, i)[..|head| + 1] == head + ","
  {
    if i > 1 {
      PlainStarts(num, head, cells, i - 1);
    }
  }

  lemma EncodedAfter<F>(num: Numerals<F>, before: string, head: string, cells: seq<Option<Cell<F>>>)
    requires AllLegible(num, cells) && EndsPlain(head)
    ensures Encoded(num, before + head, cells) == before + Encoded(num, head, cells)
  {
    EncodedIsPlain(num, before + head, cells);
    EncodedIsPlain(num, head, cells);
    PlainAfter(num, before, head, cells, Shipped(cells));
  }

  /** A character that no part has, other than the comma, is not in the sentence either. */
  lemma {:induction false} WrittenWithout<F>(num: Numerals<F>, head: string, cells: seq<Option<Cell<F>>>, i: nat, c: char)
    requires i <= |cells| && Without(head, c) && c != ','
    requires forall k :: 0 <= k < |cells| ==> Without(TextOf(num, cells[k]), c)
    ensures Without(Written(num, head, cells, i), c)
  {
    if i > 0 {
      WrittenWithout(num, head, cells, i - 1, c);
      assert Without(TextOf(num, cells[i - 1]), c);
    }
  }

  lemma LastWithout<F>(num: Numerals<F>, head: string, cells: seq<Option<Cell<F>>>, i: nat, c: char)
    requires i < |cells| && Without(Written(num, head, cells, i + 1), c)
    ensures Without(Written(num, head, cells, i), c) && Without(TextOf(num, cells[i]), c)
  {
  }

  lemma {:induction false} EarlierWithout<F>(num: Numerals<F>, head: string, cells: seq<Option<Cell<F>>>, k: nat, i: nat, c: char)
    requires k <= i <= |cells| && Without(Written(num, head, cells, i), c)
    ensures Without(Written(num, head, cells, k), c)
    decreases i
  {
    if k < i {
      LastWithout(num, head, cells, i - 1, c);
      EarlierWithout(num, head, cells, k, i - 1, c);
    }
  }

  /** And what the sentence does not have, no part has. */
  lemma PartsWithout<F>(num: Numerals<F>, head: string, cells: seq<Option<Cell<F>>>, c: char)
    requires Without(Encoded(num, head, cells), c)
    ensures Without(head, c)
    ensures forall k :: 0 <= k < |cells| ==> Without(TextOf(num, cells[k]), c)
  {
    EarlierWithout(num, head, cells, 0, |cells|, c);
    forall k | 0 <= k < |cells|
      ensures Without(TextOf(num, cells[k]), c)
    {
      EarlierWithout(num, head, cells, k + 1, |cells|, c);
      LastWithout(num, head, cells, k, c);
    }
  }

  /** What is read has the pieces' texts. */
  lemma ParsedText<F>(num: Numerals<F>, schema: seq<Kind>, fields: seq<string>, cells: seq<Option<Cell<F>>>, i: nat, c: char)
    requires Parsed(num, schema, fields) == Some(cells) && i < |cells| && cells[i].Some? && cells[i].value.Text?
    requires forall k :: 0 <= k < |fields| ==> Without(fields[k], c)
    ensures cells[i].value.s != "" && Without(cells[i].value.s, c)
  {
    assert cells[i] == ValueAt(num, schema, fields, i);
  }
}
