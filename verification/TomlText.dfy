/**
 The manifest printer: text for nested values from which the values can be read
 back. Strings are escaped as in section 7 of RFC 8259; the text is meant to be
 TOML v1.0.0.
 */
module TomlText {
  import opened Collections
  import opened Decimals

  datatype Value =
    | Bool(b: bool)
    | Str(s: string)
    | Int(n: int)
    | List(items: seq<Value>)
    | Table(entries: seq<(string, Value)>)

  type Manifest = seq<(string, Value)>

  // ----- Printing -----

  const QUOTE := '"'
  const BACKSLASH := '\\'
  const BACKSPACE := 8 as char
  const FORM_FEED := 12 as char
  const DELETE := 0x7f as char

  function HexDigit(n: nat): char
    requires n < 16
  {
    if n < 10 then ('0' as int + n) as char else ('a' as int + n - 10) as char
  }

  function Escape(c: char): string {
    if c == QUOTE then [BACKSLASH, QUOTE]
    else if c == BACKSLASH then [BACKSLASH, BACKSLASH]
    else if c == '\n' then [BACKSLASH, 'n']
    else if c == '\r' then [BACKSLASH, 'r']
    else if c == '\t' then [BACKSLASH, 't']
    else if c == FORM_FEED then [BACKSLASH, 'f']
    else if c == BACKSPACE then [BACKSLASH, 'b']
    else if c < ' ' then [BACKSLASH, 'u', '0', '0', HexDigit(c as int / 16), HexDigit(c as int % 16)]
    else [c]
  }

  function EscapeAll(s: string): string {
    if s == "" then "" else Escape(s[0]) + EscapeAll(s[1..])
  }

  function Quoted(s: string): string {
    [QUOTE] + EscapeAll(s) + [QUOTE]
  }

  function Print(v: Value): string
    decreases v, 0
  {
    match v
    case Bool(b) => if b then "true" else "false"
    case Str(s) => Quoted(s)
    case Int(n) => Numeral(n)
    case List(items) => "[" + PrintItems(items) + "]"
    case Table(entries) => "{ " + PrintEntries(entries) + " }"
  }

  function PrintItems(items: seq<Value>): string
    decreases items, 0
  {
    if items == [] then ""
    else Print(items[0]) + (if |items| == 1 then "" else ", " + PrintItems(items[1..]))
  }

  function PrintEntries(entries: seq<(string, Value)>): string
    decreases entries, 0
  {
    if entries == [] then ""
    else PrintEntry(entries[0]) + (if |entries| == 1 then "" else ", " + PrintEntries(entries[1..]))
  }

  function PrintEntry(entry: (string, Value)): string
    decreases entry, 0
  {
    Quoted(entry.0) + " = " + Print(entry.1)
  }

  function ManifestLines(manifest: Manifest): string {
    if manifest == [] then ""
    else PrintEntry(manifest[0]) + (if |manifest| == 1 then "" else "\n" + ManifestLines(manifest[1..]))
  }

  /** One line per entry, and a final newline even when there is none. */
  function ManifestText(manifest: Manifest): string {
    ManifestLines(manifest) + "\n"
  }

  // ----- Reading -----

  // The reader knows the layout the printer uses. The strict reader also enforces
  // the two rules of TOML v1.0.0 that this layout can break: a string holds no raw
  // control character but the tab ("String"), and a table defines a key once ("Keys").

  predicate AllowedRaw(c: char) {
    c == '\t' || (c >= ' ' && c != DELETE)
  }

  function Keys(entries: seq<(string, Value)>): set<string> {
    set entry | entry in entries :: entry.0
  }

  function HexValue(c: char): (n: Option<nat>)
    ensures n.Some? ==> n.value < 16
  {
    if '0' <= c <= '9' then Some(c as int - '0' as int)
    else if 'a' <= c <= 'f' then Some(c as int - 'a' as int + 10)
    else None
  }

  /** One character of a string body, and what follows it. */
  function ReadChar(s: string, strict: bool): (r: Option<(char, string)>)
    ensures r.Some? ==> |r.value.1| < |s|
  {
    if s == "" || s[0] == QUOTE then None
    else if s[0] != BACKSLASH then if strict && !AllowedRaw(s[0]) then None else Some((s[0], s[1..]))
    else if |s| < 2 then None
    else
      match s[1]
      case 'n' => Some(('\n', s[2..]))
      case 'r' => Some(('\r', s[2..]))
      case 't' => Some(('\t', s[2..]))
      case 'f' => Some((FORM_FEED, s[2..]))
      case 'b' => Some((BACKSPACE, s[2..]))
      case 'u' =>
        if |s| >= 6 && s[2] == '0' && s[3] == '0' && HexValue(s[4]).Some? && HexValue(s[5]).Some?
        then Some(((16 * HexValue(s[4]).value + HexValue(s[5]).value) as char, s[6..]))
        else None
      case c => if c == QUOTE || c == BACKSLASH then Some((c, s[2..])) else None
  }

  /** A string body up to and including the closing quote. */
  function ReadBody(s: string, strict: bool): (r: Option<(string, string)>)
    ensures r.Some? ==> |r.value.1| < |s|
    decreases |s|
  {
    if s != "" && s[0] == QUOTE then Some(("", s[1..]))
    else
      match ReadChar(s, strict)
      case None => None
      case Some((c, rest)) =>
        match ReadBody(rest, strict)
        case None => None
        case Some((tail, after)) => Some(([c] + tail, after))
  }

  function DigitCount(s: string): (k: nat)
    ensures k <= |s| && AllDigits(s[..k])
    ensures k < |s| ==> !IsDigit(s[k])
  {
    if s == "" || !IsDigit(s[0]) then 0
    else
      var k := DigitCount(s[1..]);
      assert s[..k + 1] == [s[0]] + s[1..][..k];
      k + 1
  }

  function Negated(n: int): int {
    -n
  }

  /** Digits without a leading zero. */
  function ReadNumber(s: string): Option<(nat, string)> {
    var k := DigitCount(s);
    if k == 0 || (k > 1 && s[0] == '0') then None else Some((Number(s[..k]), s[k..]))
  }

  function ReadValue(s: string, strict: bool): (r: Option<(Value, string)>)
    ensures r.Some? ==> |r.value.1| < |s|
    decreases |s|, 0
  {
    if s == "" then None
    else if s[0] == 't' then if "true" <= s then Some((Bool(true), s[4..])) else None
    else if s[0] == 'f' then if "false" <= s then Some((Bool(false), s[5..])) else None
    else if s[0] == QUOTE then
      match ReadBody(s[1..], strict)
      case None => None
      case Some((text, rest)) => Some((Str(text), rest))
    else if s[0] == '[' then
      if |s| > 1 && s[1] == ']' then Some((List([]), s[2..]))
      else
        match ReadItems(s[1..], strict)
        case None => None
        case Some((items, rest)) => Some((List(items), rest))
    else if s[0] == '{' then
      if !("{ " <= s) then None
      else if "{  }" <= s then Some((Table([]), s[4..]))
      else
        match ReadEntries(s[2..], strict)
        case None => None
        case Some((entries, rest)) => Some((Table(entries), rest))
    else if s[0] == '-' then
      match ReadNumber(s[1..])
      case None => None
      case Some((n, rest)) => Some((Int(Negated(n)), rest))
    else
      match ReadNumber(s)
      case None => None
      case Some((n, rest)) => Some((Int(n), rest))
  }

  /** At least one item, up to and including the closing bracket. */
  function ReadItems(s: string, strict: bool): (r: Option<(seq<Value>, string)>)
    ensures r.Some? ==> |r.value.1| < |s|
    decreases |s|, 1
  {
    match ReadValue(s, strict)
    case None => None
    case Some((item, rest)) =>
      if "]" <= rest then Some(([item], rest[1..]))
      else if ", " <= rest then
        match ReadItems(rest[2..], strict)
        case None => None
        case Some((items, after)) => Some(([item] + items, after))
      else None
  }

  function ReadEntry(s: string, strict: bool): (r: Option<((string, Value), string)>)
    ensures r.Some? ==> |r.value.1| < |s|
    decreases |s|, 1
  {
    if s == "" || s[0] != QUOTE then None
    else
      match ReadBody(s[1..], strict)
      case None => None
      case Some((key, rest)) =>
        if !(" = " <= rest) then None
        else
          match ReadValue(rest[3..], strict)
          case None => None
          case Some((value, after)) => Some(((key, value), after))
  }

  /** At least one entry, up to and including the closing brace. */
  function ReadEntries(s: string, strict: bool): (r: Option<(seq<(string, Value)>, string)>)
    ensures r.Some? ==> |r.value.1| < |s|
    decreases |s|, 2
  {
    match ReadEntry(s, strict)
    case None => None
    case Some((entry, rest)) =>
      if " }" <= rest then Some(([entry], rest[2..]))
      else if ", " <= rest then
        match ReadEntries(rest[2..], strict)
        case None => None
        case Some((entries, after)) =>
          if strict && entry.0 in Keys(entries) then None else Some(([entry] + entries, after))
      else None
  }

  function ReadLines(s: string, strict: bool): Option<Manifest>
    decreases |s|
  {
    match ReadEntry(s, strict)
    case None => None
    case Some((entry, rest)) =>
      if rest == "\n" then Some([entry])
      else if "\n" <= rest then
        match ReadLines(rest[1..], strict)
        case None => None
        case Some(entries) => if strict && entry.0 in Keys(entries) then None else Some([entry] + entries)
      else None
  }

  function ReadManifest(s: string, strict: bool): Option<Manifest> {
    if s == "\n" then Some([]) else ReadLines(s, strict)
  }

  // ----- Legal values -----

  /** Some string or key in the value holds the delete character. */
  predicate HoldsDelete(v: Value)
    decreases v, 0
  {
    match v
    case Str(s) => DELETE in s
    case List(items) => exists item :: item in items && HoldsDelete(item)
    case Table(entries) => exists entry :: entry in entries && EntryHoldsDelete(entry)
    case _ => false
  }

  predicate EntryHoldsDelete(entry: (string, Value))
    decreases entry, 0
  {
    DELETE in entry.0 || HoldsDelete(entry.1)
  }

  predicate DistinctKeys(entries: seq<(string, Value)>) {
    forall i, j :: 0 <= i < j < |entries| ==> entries[i].0 != entries[j].0
  }

  /** Every table in the value has distinct keys, as a dictionary does. */
  predicate IsDictionary(v: Value)
    decreases v
  {
    match v
    case List(items) => forall item :: item in items ==> IsDictionary(item)
    case Table(entries) => DistinctKeys(entries) && forall entry :: entry in entries ==> IsDictionary(entry.1)
    case _ => true
  }

  predicate Legal(v: Value) {
    IsDictionary(v) && !HoldsDelete(v)
  }

  predicate LegalEntry(entry: (string, Value)) {
    Legal(entry.1) && DELETE !in entry.0
  }

  predicate LegalTable(entries: seq<(string, Value)>) {
    DistinctKeys(entries) && forall entry :: entry in entries ==> LegalEntry(entry)
  }

  lemma TableTail(entries: seq<(string, Value)>)
    requires entries != [] && LegalTable(entries)
    ensures LegalTable(entries[1..]) && entries[0].0 !in Keys(entries[1..])
  {
    assert forall k :: 0 <= k < |entries[1..]| ==> entries[1..][k] == entries[k + 1];
  }

  // ----- Reading undoes printing -----

  lemma EscapeRead(c: char, tail: string, strict: bool)
    requires strict ==> c != DELETE
    ensures ReadChar(Escape(c) + tail, strict) == Some((c, tail))
    ensures Escape(c)[0] != QUOTE
  {
    var s := Escape(c) + tail;
    if c < ' ' && |Escape(c)| == 6 {
      assert s[4] == HexDigit(c as int / 16) && s[5] == HexDigit(c as int % 16);
      assert HexValue(HexDigit(c as int / 16)) == Some(c as int / 16);
      assert HexValue(HexDigit(c as int % 16)) == Some(c as int % 16);
      assert s[6..] == tail;
    } else if |Escape(c)| == 2 {
      assert s[2..] == tail;
    } else {
      assert s[1..] == tail;
    }
  }

  lemma BodyStep(text: string, c: char, rest: string, body: string, tail: string, strict: bool)
    requires text != "" && text[0] != QUOTE && ReadChar(text, strict) == Some((c, rest))
    requires ReadBody(rest, strict) == Some((body, tail))
    ensures ReadBody(text, strict) == Some(([c] + body, tail))
  {
  }

  lemma EscapedRead(c: char, rest: string, body: string, tail: string, strict: bool)
    requires strict ==> c != DELETE
    requires ReadBody(rest, strict) == Some((body, tail))
    ensures ReadBody(Escape(c) + rest, strict) == Some(([c] + body, tail))
  {
    EscapeRead(c, rest, strict);
    BodyStep(Escape(c) + rest, c, rest, body, tail, strict);
  }

  lemma BodyParts(s: string, tail: string)
    requires s != ""
    ensures EscapeAll(s) + [QUOTE] + tail == Escape(s[0]) + (EscapeAll(s[1..]) + [QUOTE] + tail)
    ensures [s[0]] + s[1..] == s
  {
  }

  lemma EmptyBodyRead(tail: string, strict: bool)
    ensures ReadBody(EscapeAll("") + [QUOTE] + tail, strict) == Some(("", tail))
  {
    assert EscapeAll("") + [QUOTE] + tail == [QUOTE] + tail;
  }

  lemma {:induction false} BodyRead(s: string, tail: string, strict: bool)
    requires strict ==> DELETE !in s
    ensures ReadBody(EscapeAll(s) + [QUOTE] + tail, strict) == Some((s, tail))
  {
    if s == "" {
      EmptyBodyRead(tail, strict);
    } else {
      BodyParts(s, tail);
      BodyRead(s[1..], tail, strict);
      EscapedRead(s[0], EscapeAll(s[1..]) + [QUOTE] + tail, s[1..], tail, strict);
    }
  }

  lemma {:induction false} NoLeadingZero(n: nat)
    ensures n > 0 ==> Decimal(n)[0] != '0'
    ensures |Decimal(n)| > 1 ==> n > 9
  {
    if n >= 10 {
      NoLeadingZero(n / 10);
      assert Decimal(n)[0] == Decimal(n / 10)[0];
    }
  }

  lemma NumberRead(n: nat, tail: string)
    requires tail == "" || !IsDigit(tail[0])
    ensures ReadNumber(Decimal(n) + tail) == Some((n, tail))
  {
    var s := Decimal(n) + tail;
    var k := DigitCount(s);
    assert forall i :: 0 <= i < |Decimal(n)| ==> s[i] == Decimal(n)[i];
    assert forall i :: 0 <= i < k ==> s[..k][i] == s[i];
    assert |tail| > 0 ==> s[|Decimal(n)|] == tail[0];
    assert s[..k] == Decimal(n) && s[k..] == tail;
    NoLeadingZero(n);
  }

  lemma DecimalAppend(n: nat, digit: char)
    requires n > 0 && IsDigit(digit)
    ensures Decimal(10 * n + (digit as int - '0' as int)) == Decimal(n) + [digit]
  {
    var d := digit as int - '0' as int;
    assert (10 * n + d) / 10 == n && (10 * n + d) % 10 == d;
    assert Digit(d) == digit;
  }

  lemma {:induction false} NumberPrinted(s: string)
    requires s != "" && AllDigits(s) && (|s| > 1 ==> s[0] != '0')
    ensures Decimal(Number(s)) == s
    ensures s[0] != '0' ==> Number(s) > 0
  {
    var n := |s| - 1;
    if n > 0 {
      NumberPrinted(s[..n]);
      assert s[..n][0] == s[0];
      DecimalAppend(Number(s[..n]), s[n]);
      assert s == s[..n] + [s[n]];
    } else {
      assert s == [s[0]] && Number(s[..0]) == 0;
    }
  }

  /** Only the numeral the printer writes is read as a number. */
  lemma NumberIsCanonical(s: string)
    requires ReadNumber(s).Some?
    ensures s == Decimal(ReadNumber(s).value.0) + ReadNumber(s).value.1
    ensures var tail := ReadNumber(s).value.1; tail == "" || !IsDigit(tail[0])
  {
    NumberPrinted(s[..DigitCount(s)]);
  }

  /** Only a negative number is printed with a sign, and no numeral but that of zero starts with a zero. */
  lemma SignIff(n: int)
    ensures Numeral(n)[0] == '-' <==> n < 0
    ensures n != 0 ==> Numeral(n)[0] != '0' && (n < 0 ==> Numeral(n)[1] != '0')
  {
    NoLeadingZero(if n < 0 then -n else n);
  }

  /** What follows a value does not continue it: after a number there is no digit. */
  predicate Delimited(v: Value, tail: string) {
    v.Int? ==> tail == "" || !IsDigit(tail[0])
  }

  lemma PrintStart(v: Value)
    ensures |Print(v)| > 0 && Print(v)[0] !in {']', ' ', ',', '}', '='}
  {
  }

  lemma StringRead(text: string, tail: string, strict: bool)
    requires strict ==> DELETE !in text
    ensures ReadValue(Quoted(text) + tail, strict) == Some((Str(text), tail))
  {
    var s := Quoted(text) + tail;
    assert s[0] == QUOTE && s[1..] == EscapeAll(text) + [QUOTE] + tail;
    BodyRead(text, tail, strict);
  }

  lemma SignedRead(s: string, n: int, tail: string, strict: bool)
    requires n < 0 && ReadNumber(s) == Some((-n, tail))
    ensures ReadValue("-" + s, strict) == Some((Int(n), tail))
  {
    var text := "-" + s;
    assert text[0] == '-' && text[1..] == s;
  }

  lemma UnsignedRead(s: string, n: int, tail: string, strict: bool)
    requires s != "" && IsDigit(s[0]) && n >= 0 && ReadNumber(s) == Some((n, tail))
    ensures ReadValue(s, strict) == Some((Int(n), tail))
  {
  }

  lemma IntRead(n: int, tail: string, strict: bool)
    requires Delimited(Int(n), tail)
    ensures ReadValue(Numeral(n) + tail, strict) == Some((Int(n), tail))
  {
    if n < 0 {
      NumberRead(-n, tail);
      SignedRead(Decimal(-n) + tail, n, tail, strict);
      assert "-" + Decimal(-n) + tail == "-" + (Decimal(-n) + tail);
    } else {
      NumberRead(n, tail);
      assert IsDigit(Decimal(n)[0]);
      UnsignedRead(Decimal(n) + tail, n, tail, strict);
    }
  }

  /** A bracketed text whose inside reads as items. */
  lemma ListRead(inside: string, items: seq<Value>, tail: string, strict: bool)
    requires if items == [] then inside == ""
             else |inside| > 0 && inside[0] != ']' && ReadItems(inside + "]" + tail, strict) == Some((items, tail))
    ensures ReadValue("[" + inside + "]" + tail, strict) == Some((List(items), tail))
  {
    var s := "[" + inside + "]" + tail;
    assert s[0] == '[' && s[1..] == inside + "]" + tail;
    if items == [] {
      assert s[1] == ']' && s[2..] == tail;
    } else {
      assert s[1] == inside[0];
    }
  }

  /** A braced text whose inside reads as entries. */
  lemma TableRead(inside: string, entries: seq<(string, Value)>, tail: string, strict: bool)
    requires if entries == [] then inside == ""
             else
               |inside| > 0 && inside[0] == QUOTE
               && ReadEntries(inside + " }" + tail, strict) == Some((entries, tail))
    ensures ReadValue("{ " + inside + " }" + tail, strict) == Some((Table(entries), tail))
  {
    var s := "{ " + inside + " }" + tail;
    assert s[0] == '{' && s[1] == ' ' && s[2..] == inside + " }" + tail;
    if entries == [] {
      assert s == "{  }" + tail && s[4..] == tail;
    } else {
      assert s[2] == inside[0];
    }
  }

  /** The text of a value, in front of any delimiter, reads back as that value. */
  lemma {:induction false} ValueRead(v: Value, tail: string, strict: bool)
    requires Delimited(v, tail) && (strict ==> Legal(v))
    ensures ReadValue(Print(v) + tail, strict) == Some((v, tail))
    decreases v, 0
  {
    match v {
      case Bool(b) =>
        var s := Print(v) + tail;
        if b {
          assert s[0] == 't' && s[4..] == tail;
        } else {
          assert s[0] == 'f' && s[5..] == tail;
        }
      case Str(text) => StringRead(text, tail, strict);
      case Int(n) => IntRead(n, tail, strict);
      case List(items) =>
        if items != [] {
          assert strict ==> forall item :: item in items ==> Legal(item);
          ItemsRead(items, tail, strict);
          PrintStart(items[0]);
          assert PrintItems(items)[0] == Print(items[0])[0];
        }
        ListRead(PrintItems(items), items, tail, strict);
      case Table(entries) =>
        if entries != [] {
          assert strict ==> LegalTable(entries) by {
            assert strict ==> forall entry :: entry in entries ==> !EntryHoldsDelete(entry);
          }
          EntriesRead(entries, tail, strict);
          assert PrintEntries(entries)[0] == PrintEntry(entries[0])[0] == QUOTE;
        }
        TableRead(PrintEntries(entries), entries, tail, strict);
    }
  }

  lemma {:induction false} ItemsRead(items: seq<Value>, tail: string, strict: bool)
    requires items != [] && (strict ==> forall item :: item in items ==> Legal(item))
    ensures ReadItems(PrintItems(items) + "]" + tail, strict) == Some((items, tail))
    decreases items, 1
  {
    var first := Print(items[0]);
    if |items| == 1 {
      var rest := "]" + tail;
      assert PrintItems(items) + "]" + tail == first + rest;
      ValueRead(items[0], rest, strict);
      assert rest[1..] == tail;
      assert items == [items[0]];
    } else {
      var more := PrintItems(items[1..]) + "]" + tail;
      var rest := ", " + more;
      assert PrintItems(items) + "]" + tail == first + rest;
      ValueRead(items[0], rest, strict);
      ItemsRead(items[1..], tail, strict);
      assert rest[2..] == more && rest[0] == ',';
      assert items == [items[0]] + items[1..];
    }
  }

  lemma EntrySplit(key: string, text: string, tail: string)
    ensures Quoted(key) + " = " + text + tail == Quoted(key) + (" = " + (text + tail))
  {
  }

  lemma KeyedRead(key: string, text: string, value: Value, tail: string, strict: bool)
    requires ReadValue(text, strict) == Some((value, tail)) && (strict ==> DELETE !in key)
    ensures ReadEntry(Quoted(key) + (" = " + text), strict) == Some(((key, value), tail))
  {
    var rest := " = " + text;
    assert (Quoted(key) + rest)[1..] == EscapeAll(key) + [QUOTE] + rest;
    BodyRead(key, rest, strict);
    assert rest[3..] == text;
  }

  lemma {:induction false} EntryRead(entry: (string, Value), tail: string, strict: bool)
    requires Delimited(entry.1, tail) && (strict ==> LegalEntry(entry))
    ensures ReadEntry(PrintEntry(entry) + tail, strict) == Some((entry, tail))
    decreases entry, 1
  {
    ValueRead(entry.1, tail, strict);
    EntrySplit(entry.0, Print(entry.1), tail);
    KeyedRead(entry.0, Print(entry.1) + tail, entry.1, tail, strict);
  }

  lemma LastEntryRead(entry: (string, Value), tail: string, strict: bool)
    requires ReadEntry(PrintEntry(entry) + (" }" + tail), strict) == Some((entry, " }" + tail))
    ensures ReadEntries(PrintEntries([entry]) + " }" + tail, strict) == Some(([entry], tail))
  {
    assert PrintEntries([entry]) + " }" + tail == PrintEntry(entry) + (" }" + tail);
    assert (" }" + tail)[2..] == tail;
  }

  lemma EntriesStep(entries: seq<(string, Value)>, tail: string)
    requires |entries| > 1
    ensures PrintEntries(entries) + " }" + tail
              == PrintEntry(entries[0]) + (", " + (PrintEntries(entries[1..]) + " }" + tail))
  {
  }

  lemma SeparatedRead(text: string, entry: (string, Value), more: string, entries: seq<(string, Value)>,
                      tail: string, strict: bool)
    requires ReadEntry(text, strict) == Some((entry, ", " + more))
    requires ReadEntries(more, strict) == Some((entries, tail)) && (strict ==> entry.0 !in Keys(entries))
    ensures ReadEntries(text, strict) == Some(([entry] + entries, tail))
  {
    assert (", " + more)[2..] == more && (", " + more)[0] == ',';
  }

  lemma FirstEntryRead(entries: seq<(string, Value)>, more: string, tail: string, strict: bool)
    requires |entries| > 1 && more == PrintEntries(entries[1..]) + " }" + tail
    requires ReadEntry(PrintEntry(entries[0]) + (", " + more), strict) == Some((entries[0], ", " + more))
    requires ReadEntries(more, strict) == Some((entries[1..], tail))
    requires strict ==> entries[0].0 !in Keys(entries[1..])
    ensures ReadEntries(PrintEntries(entries) + " }" + tail, strict) == Some((entries, tail))
  {
    EntriesStep(entries, tail);
    SeparatedRead(PrintEntries(entries) + " }" + tail, entries[0], more, entries[1..], tail, strict);
    assert entries == [entries[0]] + entries[1..];
  }

  lemma {:induction false} EntriesRead(entries: seq<(string, Value)>, tail: string, strict: bool)
    requires entries != [] && (strict ==> LegalTable(entries))
    ensures ReadEntries(PrintEntries(entries) + " }" + tail, strict) == Some((entries, tail))
    decreases entries, 2
  {
    if |entries| == 1 {
      EntryRead(entries[0], " }" + tail, strict);
      LastEntryRead(entries[0], tail, strict);
      assert entries == [entries[0]];
    } else {
      if strict { TableTail(entries); }
      var more := PrintEntries(entries[1..]) + " }" + tail;
      EntryRead(entries[0], ", " + more, strict);
      EntriesRead(entries[1..], tail, strict);
      FirstEntryRead(entries, more, tail, strict);
    }
  }

  /** Equal texts come from equal values, also in front of other text. */
  lemma PrintDeterminesValue(v: Value, w: Value, tail: string, other: string)
    requires Delimited(v, tail) && Delimited(w, other)
    requires Print(v) + tail == Print(w) + other
    ensures v == w && tail == other
  {
    ValueRead(v, tail, false);
    ValueRead(w, other, false);
  }

  lemma LinesStep(manifest: Manifest)
    requires |manifest| > 1
    ensures ManifestText(manifest) == PrintEntry(manifest[0]) + ("\n" + ManifestText(manifest[1..]))
    ensures |ManifestText(manifest[1..])| > 1
  {
  }

  lemma LastLineRead(s: string, entry: (string, Value), strict: bool)
    requires ReadEntry(s, strict) == Some((entry, "\n"))
    ensures ReadLines(s, strict) == Some([entry])
  {
  }

  lemma LineRead(s: string, entry: (string, Value), more: string, entries: Manifest, strict: bool)
    requires ReadEntry(s, strict) == Some((entry, "\n" + more)) && |more| > 0
             && ReadLines(more, strict) == Some(entries)
    requires strict ==> entry.0 !in Keys(entries)
    ensures ReadLines(s, strict) == Some([entry] + entries)
  {
    assert ("\n" + more)[1..] == more;
  }

  lemma FirstLineRead(manifest: Manifest, more: string, strict: bool)
    requires |manifest| > 1 && more == ManifestText(manifest[1..]) && |more| > 0
    requires ReadEntry(PrintEntry(manifest[0]) + ("\n" + more), strict) == Some((manifest[0], "\n" + more))
    requires ReadLines(more, strict) == Some(manifest[1..])
    requires strict ==> manifest[0].0 !in Keys(manifest[1..])
    ensures ReadLines(ManifestText(manifest), strict) == Some(manifest)
  {
    LineRead(PrintEntry(manifest[0]) + ("\n" + more), manifest[0], more, manifest[1..], strict);
    LinesStep(manifest);
    assert [manifest[0]] + manifest[1..] == manifest;
  }

  lemma {:induction false} LinesRead(manifest: Manifest, strict: bool)
    requires manifest != [] && (strict ==> LegalTable(manifest))
    ensures ReadLines(ManifestText(manifest), strict) == Some(manifest)
  {
    var first := PrintEntry(manifest[0]);
    if |manifest| == 1 {
      assert ManifestText(manifest) == first + "\n";
      EntryRead(manifest[0], "\n", strict);
      LastLineRead(ManifestText(manifest), manifest[0], strict);
      assert manifest == [manifest[0]];
    } else {
      var more := ManifestText(manifest[1..]);
      if strict { TableTail(manifest); }
      EntryRead(manifest[0], "\n" + more, strict);
      LinesRead(manifest[1..], strict);
      FirstLineRead(manifest, more, strict);
    }
  }

  /** A manifest's text splits back into its keys and values. */
  lemma ManifestRead(manifest: Manifest, strict: bool)
    requires strict ==> LegalTable(manifest)
    ensures ReadManifest(ManifestText(manifest), strict) == Some(manifest)
  {
    if manifest != [] {
      assert ManifestText(manifest)[0] == QUOTE;
      LinesRead(manifest, strict);
    }
  }

  lemma ManifestTextDeterminesManifest(a: Manifest, b: Manifest)
    requires ManifestText(a) == ManifestText(b)
    ensures a == b
  {
    ManifestRead(a, false);
    ManifestRead(b, false);
  }

  // ----- Raw control characters in the text -----

  /** No control character stays raw in a line of text. */
  predicate Clean(s: string) {
    forall i :: 0 <= i < |s| ==> s[i] >= ' '
  }

  lemma CleanConcat(a: string, b: string)
    ensures Clean(a + b) <==> Clean(a) && Clean(b)
    ensures DELETE in a + b <==> DELETE in a || DELETE in b
  {
    var s := a + b;
    assert forall i :: 0 <= i < |a| ==> s[i] == a[i];
    assert forall i :: 0 <= i < |b| ==> s[|a| + i] == b[i];
  }

  lemma {:induction false} EscapeAllClean(s: string)
    ensures Clean(EscapeAll(s)) && (DELETE in EscapeAll(s) <==> DELETE in s)
  {
    if s != "" {
      EscapeAllClean(s[1..]);
      assert s == [s[0]] + s[1..];
      assert Clean(Escape(s[0])) && (DELETE in Escape(s[0]) <==> DELETE == s[0]);
    }
  }

  lemma NumeralClean(n: int)
    ensures Clean(Numeral(n)) && DELETE !in Numeral(n)
  {
  }

  lemma EnclosedClean(before: string, inside: string, after: string)
    requires Clean(before) && Clean(inside) && Clean(after) && DELETE !in before && DELETE !in after
    ensures Clean(before + inside + after)
    ensures DELETE in before + inside + after <==> DELETE in inside
  {
    CleanConcat(before, inside);
    CleanConcat(before + inside, after);
  }

  lemma QuotedClean(s: string)
    ensures Clean(Quoted(s)) && (DELETE in Quoted(s) <==> DELETE in s)
  {
    EscapeAllClean(s);
    EnclosedClean([QUOTE], EscapeAll(s), [QUOTE]);
  }

  /** The escaping removes every raw control character but the delete character. */
  lemma {:induction false} PrintClean(v: Value)
    ensures Clean(Print(v)) && (DELETE in Print(v) <==> HoldsDelete(v))
    decreases v, 0
  {
    match v {
      case Bool(b) =>
      case Str(s) => QuotedClean(s);
      case Int(n) => NumeralClean(n);
      case List(items) =>
        ItemsClean(items);
        EnclosedClean("[", PrintItems(items), "]");
      case Table(entries) =>
        EntriesClean(entries);
        EnclosedClean("{ ", PrintEntries(entries), " }");
    }
  }

  /** Two texts, the second one behind a comma unless it is left out. */
  lemma SeparatedClean(first: string, rest: string, last: bool)
    requires Clean(first) && Clean(rest) && (last ==> DELETE !in rest)
    ensures Clean(first + if last then "" else ", " + rest)
    ensures DELETE in first + (if last then "" else ", " + rest) <==> DELETE in first || DELETE in rest
  {
    CleanConcat(", ", rest);
    CleanConcat(first, ", " + rest);
    CleanConcat(first, "");
  }

  lemma FirstOrRest<T>(items: seq<T>, holds: T -> bool)
    requires items != []
    ensures (exists item :: item in items && holds(item)) <==>
              holds(items[0]) || exists item :: item in items[1..] && holds(item)
  {
    assert items == [items[0]] + items[1..];
  }

  lemma {:induction false} ItemsClean(items: seq<Value>)
    ensures Clean(PrintItems(items))
    ensures DELETE in PrintItems(items) <==> exists item :: item in items && HoldsDelete(item)
    decreases items, 1
  {
    if items != [] {
      PrintClean(items[0]);
      ItemsClean(items[1..]);
      SeparatedClean(Print(items[0]), PrintItems(items[1..]), |items| == 1);
      FirstOrRest(items, HoldsDelete);
    }
  }

  lemma {:induction false} EntryClean(entry: (string, Value))
    ensures Clean(PrintEntry(entry))
    ensures DELETE in PrintEntry(entry) <==> EntryHoldsDelete(entry)
    decreases entry, 1
  {
    QuotedClean(entry.0);
    PrintClean(entry.1);
    CleanConcat(Quoted(entry.0), " = ");
    CleanConcat(Quoted(entry.0) + " = ", Print(entry.1));
  }

  lemma {:induction false} EntriesClean(entries: seq<(string, Value)>)
    ensures Clean(PrintEntries(entries))
    ensures DELETE in PrintEntries(entries) <==> exists entry :: entry in entries && EntryHoldsDelete(entry)
    decreases entries, 1
  {
    if entries != [] {
      EntryClean(entries[0]);
      EntriesClean(entries[1..]);
      SeparatedClean(PrintEntry(entries[0]), PrintEntries(entries[1..]), |entries| == 1);
      FirstOrRest(entries, EntryHoldsDelete);
    }
  }
}
