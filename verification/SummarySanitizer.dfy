/** Audit summaries: redacted, bounded in depth, string length and list length, and at most 4096 bytes when serialized. */
module SummarySanitizer {
  import opened Wrappers
  import opened OffsetMap
  import opened Texts

  const MAX_STRING := 256
  const MAX_LIST := 50
  const MAX_DEPTH := 3
  const MAX_BYTES := 4096
  const MAX_FIELD_NAME := 64
  const MAX_LENGTH := 0x8000_0000_0000_0000

  /** The printed form of a UUID, a finite float or a date, which may carry microseconds and a UTC offset with them. */
  type ShortText = s: string | |s| <= 42 && forall i :: 0 <= i < |s| ==> s[i] as int < 128

  datatype Field = Field(key: string, value: Val)

  /** A value a caller may put in a summary. Items also stands for a tuple and for a set in the order of its printed members. */
  datatype Val =
    | Null | Bool(b: bool) | Int(n: int) | Float(finite: bool, text: ShortText) | EnumOf(inner: Val) | Str(s: string)
    | Uuid(text: ShortText) | Date(text: ShortText) | Mapping(fields: seq<Field>) | Items(items: seq<Val>) | Other(typeName: string)

  datatype JField = JField(key: string, value: Json)

  datatype Json =
    | JNull | JBool(b: bool) | JInt(n: int) | JFloat(text: ShortText) | JStr(s: string)
    | JList(items: seq<Json>) | JObject(fields: seq<JField>)

  // ── Serialized size ───────────────────────────────────────────────────

  function IntSize(n: int): nat {
    if n < 0 then 1 + Digits(-n) else Digits(n)
  }

  /** Bytes of one character inside a JSON string with ensure_ascii off (RFC 8259, section 7). */
  function CharSize(c: char): nat {
    var code := c as int;
    if c == '"' || c == '\\' || code == 8 || code == 9 || code == 10 || code == 12 || code == 13 then 2
    else if code < 0x20 then 6
    else Utf8Width(c)
  }

  function CharsSize(s: string): nat {
    if s == "" then 0 else CharsSize(s[..|s| - 1]) + CharSize(s[|s| - 1])
  }

  function StringSize(s: string): nat {
    2 + CharsSize(s)
  }

  /** `len(json.dumps(j, ensure_ascii=False, separators=(",", ":")).encode())`. */
  function Size(j: Json): nat
    decreases j, 1, 0
  {
    match j
    case JNull => 4
    case JBool(b) => if b then 4 else 5
    case JInt(n) => IntSize(n)
    case JFloat(text) => |text|
    case JStr(s) => StringSize(s)
    case JList(items) => 2 + ListSize(j, |items|)
    case JObject(fields) => 2 + ObjectSize(j, |fields|)
  }

  function Comma(i: nat): nat {
    if i > 1 then 1 else 0
  }

  /** The first i items with their separators. */
  function ListSize(j: Json, i: nat): nat
    requires j.JList? && i <= |j.items|
    decreases j, 0, i
  {
    if i == 0 then 0 else ListSize(j, i - 1) + Comma(i) + Size(j.items[i - 1])
  }

  function ObjectSize(j: Json, i: nat): nat
    requires j.JObject? && i <= |j.fields|
    decreases j, 0, i
  {
    if i == 0 then 0
    else ObjectSize(j, i - 1) + Comma(i) + StringSize(j.fields[i - 1].key) + 1 + Size(j.fields[i - 1].value)
  }

  // ── The serialized text ───────────────────────────────────────────────

  function HexDigit(d: nat): char
    requires d < 16
  {
    "0123456789abcdef"[d]
  }

  function Escaped(c: char): string {
    if c == '"' then "\\\""
    else if c == '\\' then "\\\\"
    else if c == '\n' then "\\n"
    else if c == '\r' then "\\r"
    else if c == '\t' then "\\t"
    else if c == '\U{0008}' then "\\b"
    else if c == '\U{000C}' then "\\f"
    else if c < ' ' then "\\u00" + [HexDigit(c as int / 16), HexDigit(c as int % 16)]
    else [c]
  }

  function EscapedAll(s: string): string {
    if s == "" then "" else EscapedAll(s[..|s| - 1]) + Escaped(s[|s| - 1])
  }

  function Quoted(s: string): string {
    "\"" + EscapedAll(s) + "\""
  }

  /** `json.dumps(j, ensure_ascii=False, separators=(",", ":"))`. */
  function Text(j: Json): string
    decreases j, 1, 0
  {
    match j
    case JNull => "null"
    case JBool(b) => if b then "true" else "false"
    case JInt(n) => if n < 0 then "-" + Decimal(-n) else Decimal(n)
    case JFloat(text) => text
    case JStr(s) => Quoted(s)
    case JList(items) => "[" + ListText(j, |items|) + "]"
    case JObject(fields) => "{" + ObjectText(j, |fields|) + "}"
  }

  function CommaText(i: nat): string {
    if i > 1 then "," else ""
  }

  function ListText(j: Json, i: nat): string
    requires j.JList? && i <= |j.items|
    decreases j, 0, i
  {
    if i == 0 then "" else ListText(j, i - 1) + CommaText(i) + Text(j.items[i - 1])
  }

  function ObjectText(j: Json, i: nat): string
    requires j.JObject? && i <= |j.fields|
    decreases j, 0, i
  {
    if i == 0 then ""
    else ObjectText(j, i - 1) + CommaText(i) + (Quoted(j.fields[i - 1].key) + ":" + Text(j.fields[i - 1].value))
  }

  lemma {:induction false} AsciiLength(s: string)
    requires forall i :: 0 <= i < |s| ==> s[i] as int < 128
    ensures Utf8Length(s) == |s|
  {
    if s != "" {
      AsciiLength(s[..|s| - 1]);
    }
  }

  lemma EscapedSize(c: char)
    ensures Utf8Length(Escaped(c)) == CharSize(c)
  {
    if Escaped(c) == [c] {
      Utf8Exact(c, "", "");
    } else {
      AsciiLength(Escaped(c));
    }
  }

  lemma {:induction false} QuotedSize(s: string)
    ensures Utf8Length(EscapedAll(s)) == CharsSize(s)
    ensures Utf8Length(Quoted(s)) == StringSize(s)
  {
    if s != "" {
      QuotedSize(s[..|s| - 1]);
      EscapedSize(s[|s| - 1]);
      Utf8Concat(EscapedAll(s[..|s| - 1]), Escaped(s[|s| - 1]));
    }
    AsciiLength("\"");
    Utf8Concat("\"", EscapedAll(s));
    Utf8Concat("\"" + EscapedAll(s), "\"");
  }

  lemma Around(open: string, inner: string, close: string)
    requires |open| == |close| == 1 && (open + close)[0] as int < 128 && (open + close)[1] as int < 128
    ensures Utf8Length(open + inner + close) == 2 + Utf8Length(inner)
  {
    assert (open + close)[0] == open[0] && (open + close)[1] == close[0];
    AsciiLength(open);
    AsciiLength(close);
    Utf8Concat(open, inner);
    Utf8Concat(open + inner, close);
  }

  /** The size counted is the number of bytes of the serialized text. */
  lemma {:induction false} SizeIsTextLength(j: Json)
    ensures Utf8Length(Text(j)) == Size(j)
    decreases j, 1, 0
  {
    match j
    case JNull => AsciiLength("null");
    case JBool(b) =>
      AsciiLength("true");
      AsciiLength("false");
    case JInt(n) => IntTextSize(n);
    case JFloat(text) => AsciiLength(text);
    case JStr(s) => QuotedSize(s);
    case JList(items) =>
      ListTextSize(j, |items|);
      Around("[", ListText(j, |items|), "]");
    case JObject(fields) =>
      ObjectTextSize(j, |fields|);
      Around("{", ObjectText(j, |fields|), "}");
  }

  lemma IntTextSize(n: int)
    ensures Utf8Length(Text(JInt(n))) == IntSize(n)
  {
    AsciiLength(if n < 0 then "-" + Decimal(-n) else Decimal(n));
  }

  lemma CommaSize(i: nat, before: string, after: string)
    ensures Utf8Length(before + CommaText(i) + after) == Utf8Length(before) + Comma(i) + Utf8Length(after)
  {
    AsciiLength(CommaText(i));
    Utf8Concat(before, CommaText(i));
    Utf8Concat(before + CommaText(i), after);
  }

  lemma {:induction false} ListTextSize(j: Json, i: nat)
    requires j.JList? && i <= |j.items|
    ensures Utf8Length(ListText(j, i)) == ListSize(j, i)
    decreases j, 0, i
  {
    if i > 0 {
      ListTextSize(j, i - 1);
      SizeIsTextLength(j.items[i - 1]);
      CommaSize(i, ListText(j, i - 1), Text(j.items[i - 1]));
    }
  }

  lemma {:induction false} ObjectTextSize(j: Json, i: nat)
    requires j.JObject? && i <= |j.fields|
    ensures Utf8Length(ObjectText(j, i)) == ObjectSize(j, i)
    decreases j, 0, i
  {
    if i > 0 {
      var f := j.fields[i - 1];
      ObjectTextSize(j, i - 1);
      SizeIsTextLength(f.value);
      FieldTextSize(f.key, Text(f.value));
      CommaSize(i, ObjectText(j, i - 1), Quoted(f.key) + ":" + Text(f.value));
    }
  }

  lemma FieldTextSize(key: string, value: string)
    ensures Utf8Length(Quoted(key) + ":" + value) == StringSize(key) + 1 + Utf8Length(value)
  {
    QuotedSize(key);
    AsciiLength(":");
    Utf8Concat(Quoted(key), ":");
    Utf8Concat(Quoted(key) + ":", value);
  }

  // ── Cleaning ──────────────────────────────────────────────────────────

  const DENIED: set<string> := {
    "key", "secret", "token", "password", "passwd", "authorization", "auth_header", "cookie", "credential", "prompt",
    "response", "content", "body", "headers", "raw"}

  /** `str.lower` is a parameter. */
  type Lower = string -> string

  predicate KeyAllowed(lower: Lower, key: string) {
    key == "api_key_id" || forall part :: part in DENIED ==> !Contains(lower(key), part)
  }

  function Clip(s: string, limit: nat): string {
    if |s| > limit then s[..limit] else s
  }

  /** Sets a field as a Python dict does: an existing key keeps its place. */
  function Put(fields: seq<JField>, key: string, value: Json): seq<JField> {
    if fields == [] then [JField(key, value)]
    else if fields[0].key == key then [JField(key, value)] + fields[1..]
    else [fields[0]] + Put(fields[1..], key, value)
  }

  function Marker(dropped: nat): string {
    "\U{2026}+" + Decimal(dropped) + " more"
  }

  /** A value held by a container at this level; None drops it. */
  function Clean(lower: Lower, v: Val, level: nat): Option<Json>
    requires 1 <= level <= MAX_DEPTH
    decreases MAX_DEPTH - level, 0, v
  {
    match v
    case Null => Some(JNull)
    case Bool(b) => Some(JBool(b))
    case Int(n) => Some(JInt(n))
    case Float(finite, text) => Some(if finite then JFloat(text) else JNull)
    case EnumOf(inner) => Clean(lower, inner, level)
    case Str(s) => Some(JStr(Clip(s, MAX_STRING)))
    case Uuid(text) => Some(JStr(text))
    case Date(text) => Some(JStr(text))
    case Mapping(fields) =>
      if level >= MAX_DEPTH then None else Some(JObject(CleanFields(lower, fields, level + 1)))
    case Items(items) =>
      if level >= MAX_DEPTH then None else Some(JList(ClipList(lower, items, level + 1)))
    case Other(name) => Some(JStr("<" + name + ">"))
  }

  function CleanFields(lower: Lower, fields: seq<Field>, level: nat): seq<JField>
    requires 1 <= level <= MAX_DEPTH
    decreases MAX_DEPTH - level, 1, |fields|
  {
    if fields == [] then []
    else
      var result := CleanFields(lower, fields[..|fields| - 1], level);
      AddField(lower, result, fields[|fields| - 1].key, Clean(lower, fields[|fields| - 1].value, level))
  }

  function AddField(lower: Lower, result: seq<JField>, key: string, value: Option<Json>): seq<JField> {
    var clipped := Clip(key, MAX_STRING);
    if KeyAllowed(lower, clipped) && value.Some? then Put(result, clipped, value.value) else result
  }

  function CleanItems(lower: Lower, items: seq<Val>, level: nat): (kept: seq<Json>)
    requires 1 <= level <= MAX_DEPTH
    ensures |kept| <= |items|
    decreases MAX_DEPTH - level, 1, |items|
  {
    if items == [] then []
    else
      var c := Clean(lower, items[|items| - 1], level);
      CleanItems(lower, items[..|items| - 1], level) + (if c.Some? then [c.value] else [])
  }

  function ClipList(lower: Lower, items: seq<Val>, level: nat): seq<Json>
    requires 1 <= level <= MAX_DEPTH
    decreases MAX_DEPTH - level, 2, 0
  {
    if |items| > MAX_LIST then CleanItems(lower, items[..MAX_LIST], level) + [JStr(Marker(|items| - MAX_LIST))]
    else CleanItems(lower, items, level)
  }

  // ── What a cleaned value is of the given one ──────────────────────────

  /** A container four levels down is dropped. */
  predicate IsDropped(v: Val, level: nat) {
    match v
    case EnumOf(inner) => IsDropped(inner, level)
    case Mapping(_) => level >= 3
    case Items(_) => level >= 3
    case _ => false
  }

  /** t is s up to so many characters. */
  predicate IsCut(s: string, limit: nat, t: string) {
    t <= s && (|s| <= limit ==> t == s) && (|s| > limit ==> |t| == limit)
  }

  predicate HasPart(text: string, part: string) {
    exists i :: 0 <= i && i + |part| <= |text| && OccursAt(text, part, i)
  }

  /** The fifteen words that no key may contain in any case, but for one key. */
  predicate IsDenied(lower: Lower, key: string) {
    var low := lower(key);
    && key != "api_key_id"
    && (|| HasPart(low, "key") || HasPart(low, "secret") || HasPart(low, "token") || HasPart(low, "password")
        || HasPart(low, "passwd") || HasPart(low, "authorization") || HasPart(low, "auth_header") || HasPart(low, "cookie")
        || HasPart(low, "credential") || HasPart(low, "prompt") || HasPart(low, "response") || HasPart(low, "content")
        || HasPart(low, "body") || HasPart(low, "headers") || HasPart(low, "raw"))
  }

  /** Field i is kept under this key. */
  predicate Supplies(lower: Lower, fields: seq<Field>, i: nat, key: string, level: nat) {
    i < |fields| && IsCut(fields[i].key, 256, key) && !IsDenied(lower, key) && !IsDropped(fields[i].value, level)
  }

  ghost predicate IsLastOf(lower: Lower, fields: seq<Field>, i: nat, key: string, level: nat) {
    Supplies(lower, fields, i, key, level) && forall j: nat :: Supplies(lower, fields, j, key, level) ==> j <= i
  }

  ghost predicate IsFirstOf(lower: Lower, fields: seq<Field>, i: nat, key: string, level: nat) {
    Supplies(lower, fields, i, key, level) && forall j: nat :: Supplies(lower, fields, j, key, level) ==> i <= j
  }

  /** The places of the items that are kept, of the first fifty, in order. */
  ghost predicate KeptPlaces(items: seq<Val>, level: nat, places: seq<nat>) {
    && (forall a, b :: 0 <= a < b < |places| ==> places[a] < places[b])
    && forall i: nat :: i in places <==> i < 50 && i < |items| && !IsDropped(items[i], level)
  }

  /** j is what a summary shows of v: scalars as they are, strings cut, names in place of anything else. */
  ghost predicate Shows(lower: Lower, v: Val, level: nat, j: Json)
    decreases v, 1
  {
    match v
    case Null => j == JNull
    case Bool(b) => j == JBool(b)
    case Int(n) => j == JInt(n)
    case Float(finite, text) => (finite ==> j == JFloat(text)) && (!finite ==> j == JNull)
    case EnumOf(inner) => Shows(lower, inner, level, j)
    case Str(s) => j.JStr? && IsCut(s, 256, j.s)
    case Uuid(text) => j == JStr(text)
    case Date(text) => j == JStr(text)
    case Mapping(_) => level < 3 && j.JObject? && ShowsFields(lower, v, level + 1, j.fields)
    case Items(_) => level < 3 && j.JList? && ShowsItems(lower, v, level + 1, j.items)
    case Other(name) => j == JStr("<" + name + ">")
  }

  /** One field for each key that is kept, in the order of first appearance, with the value of the last one. */
  ghost predicate ShowsFields(lower: Lower, v: Val, level: nat, out: seq<JField>)
    requires v.Mapping?
    decreases v, 0
  {
    && (forall i: nat, key :: Supplies(lower, v.fields, i, key, level) ==> exists a :: 0 <= a < |out| && out[a].key == key)
    && (forall a :: 0 <= a < |out| ==> exists i: nat ::
      IsLastOf(lower, v.fields, i, out[a].key, level) && Shows(lower, v.fields[i].value, level, out[a].value))
    && InFirstOrder(lower, v.fields, level, out) && forall a, b :: 0 <= a < b < |out| ==> out[a].key != out[b].key
  }

  ghost predicate InFirstOrder(lower: Lower, fields: seq<Field>, level: nat, out: seq<JField>) {
    forall a, b :: 0 <= a < b < |out| ==> FirstBefore(lower, fields, level, out[a].key, out[b].key)
  }

  /** The first field under k comes before the first one under l. */
  ghost predicate FirstBefore(lower: Lower, fields: seq<Field>, level: nat, k: string, l: string) {
    forall i: nat, j: nat :: IsFirstOf(lower, fields, i, k, level) && IsFirstOf(lower, fields, j, l, level) ==> i < j
  }

  /** What is shown of the first fifty items, and how many more there are. */
  ghost predicate ShowsItems(lower: Lower, v: Val, level: nat, out: seq<Json>)
    requires v.Items?
    decreases v, 0
  {
    exists places :: KeptPlaces(v.items, level, places) && ShowsPlaces(lower, v, level, places, out)
  }

  ghost predicate ShowsPlaces(lower: Lower, v: Val, level: nat, places: seq<nat>, out: seq<Json>)
    requires v.Items?
    decreases v, 0, 0
  {
    && |out| == |places| + (if |v.items| > 50 then 1 else 0)
    && (forall a :: 0 <= a < |places| ==> places[a] < |v.items| && Shows(lower, v.items[places[a]], level, out[a]))
    && (|v.items| > 50 ==> out[|places|] == JStr("\U{2026}+" + Decimal(|v.items| - 50) + " more"))
  }

  lemma DeniedIff(lower: Lower, key: string)
    ensures IsDenied(lower, key) <==> !KeyAllowed(lower, key)
  {
    forall part
      ensures HasPart(lower(key), part) <==> Contains(lower(key), part)
    {
    }
  }

  lemma {:induction false} DroppedIff(lower: Lower, v: Val, level: nat)
    requires 1 <= level <= MAX_DEPTH
    ensures Clean(lower, v, level).None? <==> IsDropped(v, level)
  {
    match v
    case EnumOf(inner) => DroppedIff(lower, inner, level);
    case _ =>
  }

  /** With no field under the key one is added at the end; with one, its value is replaced. */
  lemma {:induction false} PutIs(fields: seq<JField>, key: string, value: Json)
    ensures (forall a :: 0 <= a < |fields| ==> fields[a].key != key) ==> Put(fields, key, value) == fields + [JField(key, value)]
    ensures forall a :: 0 <= a < |fields| && fields[a].key == key && (forall b :: 0 <= b < a ==> fields[b].key != key) ==>
      Put(fields, key, value) == fields[a := JField(key, value)]
  {
    if fields != [] && fields[0].key != key {
      var rest := fields[1..];
      PutIs(rest, key, value);
      forall a | 0 <= a < |fields| && fields[a].key == key && (forall b :: 0 <= b < a ==> fields[b].key != key)
        ensures Put(fields, key, value) == fields[a := JField(key, value)]
      {
        assert rest[a - 1].key == key && forall b :: 0 <= b < a - 1 ==> rest[b].key != key;
      }
    }
  }

  /** A cleaned value shows the given one. */
  lemma {:induction false} CleanShows(lower: Lower, v: Val, level: nat)
    requires 1 <= level <= MAX_DEPTH && !IsDropped(v, level)
    ensures Clean(lower, v, level).Some? && Shows(lower, v, level, Clean(lower, v, level).value)
    decreases v, 1
  {
    DroppedIff(lower, v, level);
    match v
    case EnumOf(inner) => CleanShows(lower, inner, level);
    case Mapping(fields) => CleanFieldsShow(lower, v, level + 1);
    case Items(items) => ClipListShows(lower, v, level + 1);
    case _ =>
  }

  lemma CleanFieldsShow(lower: Lower, v: Val, level: nat)
    requires 1 <= level <= MAX_DEPTH && v.Mapping?
    ensures ShowsFields(lower, v, level, CleanFields(lower, v.fields, level))
    decreases v, 0
  {
    forall i | 0 <= i < |v.fields| && !IsDropped(v.fields[i].value, level)
      ensures var c := Clean(lower, v.fields[i].value, level); c.Some? && Shows(lower, v.fields[i].value, level, c.value)
    {
      CleanShows(lower, v.fields[i].value, level);
    }
    FieldsAre(lower, v.fields, level);
    var out := CleanFields(lower, v.fields, level);
    forall a | 0 <= a < |out|
      ensures exists i: nat :: IsLastOf(lower, v.fields, i, out[a].key, level) && Shows(lower, v.fields[i].value, level, out[a].value)
    {
      var i: nat :| IsLastOf(lower, v.fields, i, out[a].key, level) && Clean(lower, v.fields[i].value, level) == Some(out[a].value);
    }
  }

  /** Each field of out has its own key, and the value of the last field that supplies it. */
  ghost predicate FromLast(lower: Lower, fields: seq<Field>, level: nat, out: seq<JField>)
    requires 1 <= level <= MAX_DEPTH
  {
    && (forall i: nat, key :: Supplies(lower, fields, i, key, level) ==> exists a :: 0 <= a < |out| && out[a].key == key)
    && (forall a :: 0 <= a < |out| ==> LastGives(lower, fields, level, out[a]))
    && InFirstOrder(lower, fields, level, out)
    && forall a, b :: 0 <= a < b < |out| ==> out[a].key != out[b].key
  }

  ghost predicate LastGives(lower: Lower, fields: seq<Field>, level: nat, f: JField)
    requires 1 <= level <= MAX_DEPTH
  {
    exists i: nat :: IsLastOf(lower, fields, i, f.key, level) && Clean(lower, fields[i].value, level) == Some(f.value)
  }

  lemma {:induction false} FieldsAre(lower: Lower, fields: seq<Field>, level: nat)
    requires 1 <= level <= MAX_DEPTH
    ensures FromLast(lower, fields, level, CleanFields(lower, fields, level))
    decreases |fields|
  {
    if fields != [] {
      var front, last := fields[..|fields| - 1], fields[|fields| - 1];
      assert fields == front + [last];
      FieldsAre(lower, front, level);
      FieldAdded(lower, front, last, level, CleanFields(lower, front, level));
    }
  }

  /** What one more field adds: itself, at the end, if it is kept. */
  ghost predicate SuppliesNow(lower: Lower, front: seq<Field>, last: Field, i: nat, key: string, level: nat, kept: bool) {
    Supplies(lower, front, i, key, level) || (kept && i == |front| && key == Clip(last.key, MAX_STRING))
  }

  ghost predicate OneMore(lower: Lower, front: seq<Field>, last: Field, level: nat, kept: bool) {
    forall i: nat, k ::
      Supplies(lower, front + [last], i, k, level) <==> SuppliesNow(lower, front, last, i, k, level, kept)
  }

  ghost predicate IsKept(lower: Lower, f: Field, level: nat)
    requires 1 <= level <= MAX_DEPTH
  {
    KeyAllowed(lower, Clip(f.key, MAX_STRING)) && Clean(lower, f.value, level).Some?
  }

  lemma SuppliesStep(lower: Lower, front: seq<Field>, last: Field, i: nat, key: string, level: nat)
    requires 1 <= level <= MAX_DEPTH
    ensures Supplies(lower, front + [last], i, key, level) <==>
      SuppliesNow(lower, front, last, i, key, level, IsKept(lower, last, level))
  {
    DeniedIff(lower, Clip(last.key, MAX_STRING));
    DroppedIff(lower, last.value, level);
    assert IsCut(last.key, 256, key) <==> key == Clip(last.key, MAX_STRING);
  }

  lemma FieldAdded(lower: Lower, front: seq<Field>, last: Field, level: nat, out: seq<JField>)
    requires 1 <= level <= MAX_DEPTH && FromLast(lower, front, level, out)
    ensures FromLast(lower, front + [last], level, AddField(lower, out, last.key, Clean(lower, last.value, level)))
  {
    forall i: nat, k
      ensures Supplies(lower, front + [last], i, k, level) <==>
        SuppliesNow(lower, front, last, i, k, level, IsKept(lower, last, level))
    {
      SuppliesStep(lower, front, last, i, k, level);
    }
    if IsKept(lower, last, level) {
      FieldPut(lower, front, last, level, out, Clean(lower, last.value, level).value);
    } else {
      NothingAdded(lower, front, last, level, out);
    }
  }

  lemma NothingAdded(lower: Lower, front: seq<Field>, last: Field, level: nat, out: seq<JField>)
    requires 1 <= level <= MAX_DEPTH && FromLast(lower, front, level, out) && OneMore(lower, front, last, level, false)
    ensures FromLast(lower, front + [last], level, out)
  {
    var fields := front + [last];
    assert forall i: nat, k :: Supplies(lower, fields, i, k, level) <==> Supplies(lower, front, i, k, level);
    forall a | 0 <= a < |out|
      ensures LastGives(lower, fields, level, out[a])
    {
      StillLast(lower, front, last, level, false, out[a]);
    }
    forall i: nat, k | IsFirstOf(lower, fields, i, k, level)
      ensures IsFirstOf(lower, front, i, k, level)
    {
    }
    forall a, b | 0 <= a < b < |out|
      ensures FirstBefore(lower, fields, level, out[a].key, out[b].key)
    {
      assert FirstBefore(lower, front, level, out[a].key, out[b].key);
    }
  }

  /** A field under another key gives what it gave. */
  lemma StillLast(lower: Lower, front: seq<Field>, last: Field, level: nat, kept: bool, f: JField)
    requires 1 <= level <= MAX_DEPTH && LastGives(lower, front, level, f) && OneMore(lower, front, last, level, kept)
    requires kept ==> f.key != Clip(last.key, MAX_STRING)
    ensures LastGives(lower, front + [last], level, f)
  {
    var i: nat :| IsLastOf(lower, front, i, f.key, level) && Clean(lower, front[i].value, level) == Some(f.value);
    assert (front + [last])[i] == front[i];
    forall j: nat | Supplies(lower, front + [last], j, f.key, level)
      ensures j <= i
    {
      assert SuppliesNow(lower, front, last, j, f.key, level, kept);
    }
    assert Supplies(lower, front, i, f.key, level) && SuppliesNow(lower, front, last, i, f.key, level, kept);
    assert IsLastOf(lower, front + [last], i, f.key, level);
  }

  lemma NowLast(lower: Lower, front: seq<Field>, last: Field, level: nat, value: Json)
    requires 1 <= level <= MAX_DEPTH && OneMore(lower, front, last, level, true) && Clean(lower, last.value, level) == Some(value)
    ensures LastGives(lower, front + [last], level, JField(Clip(last.key, MAX_STRING), value))
  {
    var fields, key := front + [last], Clip(last.key, MAX_STRING);
    assert SuppliesNow(lower, front, last, |front|, key, level, true) && fields[|front|] == last;
    assert IsLastOf(lower, fields, |front|, key, level);
  }

  lemma FieldPut(lower: Lower, front: seq<Field>, last: Field, level: nat, out: seq<JField>, value: Json)
    requires 1 <= level <= MAX_DEPTH && FromLast(lower, front, level, out) && OneMore(lower, front, last, level, true)
    requires Clean(lower, last.value, level) == Some(value)
    ensures FromLast(lower, front + [last], level, Put(out, Clip(last.key, MAX_STRING), value))
  {
    var key := Clip(last.key, MAX_STRING);
    var put := Put(out, key, value);
    PutIs(out, key, value);
    PutKeys(out, key, value);
    forall a | 0 <= a < |put|
      ensures LastGives(lower, front + [last], level, put[a])
    {
      if put[a].key == key {
        NowLast(lower, front, last, level, value);
      } else {
        StillLast(lower, front, last, level, true, out[a]);
      }
    }
    PutCovers(lower, front, last, level, out, value);
    PutOrder(lower, front, last, level, out, value);
  }

  lemma {:induction false} PutHas(fields: seq<JField>, key: string, value: Json)
    ensures exists a :: 0 <= a < |Put(fields, key, value)| && Put(fields, key, value)[a].key == key
  {
    var put := Put(fields, key, value);
    if fields == [] || fields[0].key == key {
      assert put[0].key == key;
    } else {
      PutHas(fields[1..], key, value);
      var a :| 0 <= a < |Put(fields[1..], key, value)| && Put(fields[1..], key, value)[a].key == key;
      assert put[a + 1].key == key;
    }
  }

  lemma {:induction false} PutKeepsKeys(fields: seq<JField>, key: string, value: Json)
    ensures |Put(fields, key, value)| >= |fields|
    ensures forall a :: 0 <= a < |fields| ==> Put(fields, key, value)[a].key == fields[a].key
  {
    if fields != [] && fields[0].key != key {
      PutKeepsKeys(fields[1..], key, value);
    }
  }

  lemma PutCovers(lower: Lower, front: seq<Field>, last: Field, level: nat, out: seq<JField>, value: Json)
    requires 1 <= level <= MAX_DEPTH && FromLast(lower, front, level, out) && OneMore(lower, front, last, level, true)
    ensures var put := Put(out, Clip(last.key, MAX_STRING), value);
      forall i: nat, k :: Supplies(lower, front + [last], i, k, level) ==> exists a :: 0 <= a < |put| && put[a].key == k
  {
    var key := Clip(last.key, MAX_STRING);
    var put := Put(out, key, value);
    PutKeepsKeys(out, key, value);
    forall i: nat, k | Supplies(lower, front + [last], i, k, level)
      ensures exists a :: 0 <= a < |put| && put[a].key == k
    {
      assert SuppliesNow(lower, front, last, i, k, level, true);
      if Supplies(lower, front, i, k, level) {
        var a :| 0 <= a < |out| && out[a].key == k;
        assert put[a].key == k;
      } else {
        assert k == key;
        PutHas(out, key, value);
      }
    }
  }

  lemma PutOrder(lower: Lower, front: seq<Field>, last: Field, level: nat, out: seq<JField>, value: Json)
    requires 1 <= level <= MAX_DEPTH && FromLast(lower, front, level, out) && OneMore(lower, front, last, level, true)
    ensures InFirstOrder(lower, front + [last], level, Put(out, Clip(last.key, MAX_STRING), value))
  {
    var fields, key := front + [last], Clip(last.key, MAX_STRING);
    PutIs(out, key, value);
    var put := Put(out, key, value);
    forall a, b, i: nat, j: nat | 0 <= a < b < |put| &&
        IsFirstOf(lower, fields, i, put[a].key, level) && IsFirstOf(lower, fields, j, put[b].key, level)
      ensures i < j
    {
      FirstInFront(lower, front, last, level, out, a, i, put[a].key);
      if b < |out| {
        FirstInFront(lower, front, last, level, out, b, j, put[b].key);
        assert FirstBefore(lower, front, level, out[a].key, out[b].key);
      } else {
        NotInFront(lower, front, last, level, out, j, key);
      }
    }
  }

  lemma NotInFront(lower: Lower, front: seq<Field>, last: Field, level: nat, out: seq<JField>, j: nat, key: string)
    requires 1 <= level <= MAX_DEPTH && FromLast(lower, front, level, out) && OneMore(lower, front, last, level, true)
    requires (forall a :: 0 <= a < |out| ==> out[a].key != key) && Supplies(lower, front + [last], j, key, level)
    ensures j == |front|
  {
    assert SuppliesNow(lower, front, last, j, key, level, true);
  }

  /** A key that out has was first supplied by the front. */
  lemma FirstInFront(lower: Lower, front: seq<Field>, last: Field, level: nat, out: seq<JField>, a: nat, i: nat, key: string)
    requires 1 <= level <= MAX_DEPTH && FromLast(lower, front, level, out) && a < |out| && out[a].key == key
    requires OneMore(lower, front, last, level, true)
    requires IsFirstOf(lower, front + [last], i, key, level)
    ensures i < |front| && IsFirstOf(lower, front, i, key, level)
  {
    assert LastGives(lower, front, level, out[a]);
    var x: nat :| IsLastOf(lower, front, x, out[a].key, level);
    assert SuppliesNow(lower, front, last, x, key, level, true) && x < |front|;
    assert i <= x && SuppliesNow(lower, front, last, i, key, level, true);
    forall j: nat | Supplies(lower, front, j, key, level)
      ensures i <= j
    {
      assert SuppliesNow(lower, front, last, j, key, level, true);
    }
  }

  /** The kept places of the first n items. */
  ghost predicate PlacesUpTo(items: seq<Val>, n: nat, level: nat, places: seq<nat>) {
    && (forall a, b :: 0 <= a < b < |places| ==> places[a] < places[b])
    && forall i: nat :: i in places <==> i < n && i < |items| && !IsDropped(items[i], level)
  }

  lemma {:induction false} ItemsAre(lower: Lower, items: seq<Val>, n: nat, level: nat) returns (places: seq<nat>)
    requires 1 <= level <= MAX_DEPTH && n <= |items|
    ensures PlacesUpTo(items, n, level, places)
    ensures var kept := CleanItems(lower, items[..n], level);
      |kept| == |places| && forall a :: 0 <= a < |places| ==> places[a] < n && Clean(lower, items[places[a]], level) == Some(kept[a])
  {
    places := [];
    if n > 0 {
      places := ItemsAre(lower, items, n - 1, level);
      assert items[..n][..n - 1] == items[..n - 1];
      DroppedIff(lower, items[n - 1], level);
      assert forall a :: 0 <= a < |places| ==> places[a] in places;
      if !IsDropped(items[n - 1], level) {
        places := places + [n - 1];
      }
    }
  }

  lemma ClipListShows(lower: Lower, v: Val, level: nat)
    requires 1 <= level <= MAX_DEPTH && v.Items?
    ensures ShowsItems(lower, v, level, ClipList(lower, v.items, level))
    decreases v, 0
  {
    var n := if |v.items| > 50 then 50 else |v.items|;
    var places := ItemsAre(lower, v.items, n, level);
    assert v.items[..|v.items|] == v.items;
    forall a | 0 <= a < |places|
      ensures places[a] < |v.items| && Shows(lower, v.items[places[a]], level, Clean(lower, v.items[places[a]], level).value)
    {
      assert places[a] in places;
      CleanShows(lower, v.items[places[a]], level);
    }
    assert KeptPlaces(v.items, level, places);
    assert ShowsPlaces(lower, v, level, places, ClipList(lower, v.items, level));
  }

  // ── What cleaning guarantees ──────────────────────────────────────────

  /** At most depth nested containers, only allowed keys, lists of at most 51 items, and no string over the limit. */
  ghost predicate Safe(lower: Lower, j: Json, depth: nat, limit: nat)
    decreases depth, 0
  {
    match j
    case JStr(s) => |s| <= limit
    case JList(items) =>
      depth > 0 && |items| <= MAX_LIST + 1 && forall i :: 0 <= i < |items| ==> Safe(lower, items[i], depth - 1, limit)
    case JObject(fields) => depth > 0 && SafeFields(lower, fields, depth - 1, limit)
    case _ => true
  }

  ghost predicate SafeFields(lower: Lower, fields: seq<JField>, depth: nat, limit: nat)
    decreases depth, 1
  {
    forall i :: 0 <= i < |fields| ==>
      KeyAllowed(lower, fields[i].key) && |fields[i].key| <= limit && Safe(lower, fields[i].value, depth, limit)
  }

  /** The type names it would show have at most n characters, and its lists are no longer than a list can be. */
  predicate Bounded(v: Val, n: nat)
    decreases v
  {
    match v
    case EnumOf(inner) => Bounded(inner, n)
    case Mapping(fields) => forall i :: 0 <= i < |fields| ==> Bounded(fields[i].value, n)
    case Items(items) => |items| < MAX_LENGTH && forall i :: 0 <= i < |items| ==> Bounded(items[i], n)
    case Other(name) => |name| <= n
    case _ => true
  }

  predicate BoundedFields(fields: seq<Field>, n: nat) {
    |fields| < MAX_LENGTH && forall i :: 0 <= i < |fields| ==> Bounded(fields[i].value, n)
  }

  lemma LengthDigits(n: nat)
    requires n < MAX_LENGTH
    ensures Digits(n) <= 19
  {
    assert Pow10(5) == 100_000 && Pow10(10) == 10_000_000_000;
    assert Pow10(15) == 1_000_000_000_000_000;
    assert Pow10(19) == 10_000_000_000_000_000_000;
    DigitsBound(n, 19, Pow10(19));
  }

  lemma {:induction false} PutSafe(lower: Lower, fields: seq<JField>, key: string, value: Json, depth: nat, limit: nat)
    requires SafeFields(lower, fields, depth, limit)
    requires KeyAllowed(lower, key) && |key| <= limit && Safe(lower, value, depth, limit)
    ensures SafeFields(lower, Put(fields, key, value), depth, limit)
  {
    if fields != [] && fields[0].key != key {
      PutSafe(lower, fields[1..], key, value, depth, limit);
    }
  }

  lemma {:induction false} CleanSafe(lower: Lower, v: Val, level: nat, limit: nat)
    requires 1 <= level <= MAX_DEPTH && limit >= MAX_STRING && Bounded(v, limit - 2)
    ensures var c := Clean(lower, v, level); c.Some? ==> Safe(lower, c.value, MAX_DEPTH - level, limit)
    decreases MAX_DEPTH - level, 0, v
  {
    match v
    case EnumOf(inner) => CleanSafe(lower, inner, level, limit);
    case Mapping(fields) =>
      if level < MAX_DEPTH {
        CleanFieldsSafe(lower, fields, level + 1, limit);
      }
    case Items(items) =>
      if level < MAX_DEPTH {
        ClipListSafe(lower, items, level + 1, limit);
      }
    case _ =>
  }

  lemma {:induction false} CleanFieldsSafe(lower: Lower, fields: seq<Field>, level: nat, limit: nat)
    requires 1 <= level <= MAX_DEPTH && limit >= MAX_STRING
    requires forall i :: 0 <= i < |fields| ==> Bounded(fields[i].value, limit - 2)
    ensures SafeFields(lower, CleanFields(lower, fields, level), MAX_DEPTH - level, limit)
    decreases MAX_DEPTH - level, 1, |fields|
  {
    if fields != [] {
      var front, last := fields[..|fields| - 1], fields[|fields| - 1];
      CleanFieldsSafe(lower, front, level, limit);
      CleanSafe(lower, last.value, level, limit);
      var c, key := Clean(lower, last.value, level), Clip(last.key, MAX_STRING);
      if KeyAllowed(lower, key) && c.Some? {
        PutSafe(lower, CleanFields(lower, front, level), key, c.value, MAX_DEPTH - level, limit);
      }
    }
  }

  ghost predicate SafeItems(lower: Lower, items: seq<Json>, depth: nat, limit: nat) {
    forall i :: 0 <= i < |items| ==> Safe(lower, items[i], depth, limit)
  }

  lemma {:induction false} CleanItemsSafe(lower: Lower, items: seq<Val>, level: nat, limit: nat)
    requires 1 <= level <= MAX_DEPTH && limit >= MAX_STRING
    requires forall i :: 0 <= i < |items| ==> Bounded(items[i], limit - 2)
    ensures SafeItems(lower, CleanItems(lower, items, level), MAX_DEPTH - level, limit)
    decreases MAX_DEPTH - level, 1, |items|
  {
    if items != [] {
      CleanItemsSafe(lower, items[..|items| - 1], level, limit);
      CleanSafe(lower, items[|items| - 1], level, limit);
    }
  }

  lemma {:induction false} ClipListSafe(lower: Lower, items: seq<Val>, level: nat, limit: nat)
    requires 1 <= level <= MAX_DEPTH && limit >= MAX_STRING && |items| < MAX_LENGTH
    requires forall i :: 0 <= i < |items| ==> Bounded(items[i], limit - 2)
    ensures SafeItems(lower, ClipList(lower, items, level), MAX_DEPTH - level, limit)
    ensures |ClipList(lower, items, level)| <= MAX_LIST + 1
    decreases MAX_DEPTH - level, 2, 0
  {
    if |items| > MAX_LIST {
      CleanItemsSafe(lower, items[..MAX_LIST], level, limit);
      LengthDigits(|items| - MAX_LIST);
    } else {
      CleanItemsSafe(lower, items, level, limit);
    }
  }

  // ── The oversized fallback ────────────────────────────────────────────

  function Keys(fields: seq<JField>): (names: seq<string>)
    ensures |names| == |fields|
    ensures forall i :: 0 <= i < |fields| ==> names[i] == fields[i].key
  {
    if fields == [] then [] else Keys(fields[..|fields| - 1]) + [fields[|fields| - 1].key]
  }

  /** The first m names, each clipped. */
  function Shown(names: seq<string>, m: nat): (items: seq<Json>)
    requires m <= |names|
    ensures |items| == m
    ensures forall i :: 0 <= i < m ==> items[i] == JStr(Clip(names[i], MAX_FIELD_NAME))
  {
    if m == 0 then [] else Shown(names, m - 1) + [JStr(Clip(names[m - 1], MAX_FIELD_NAME))]
  }

  function Fallback(names: seq<string>, m: nat): seq<JField>
    requires m <= |names|
  {
    [JField("truncated", JBool(true)), JField("field_count", JInt(|names|)), JField("fields", JList(Shown(names, m)))]
  }

  function MaxShown(names: seq<string>): nat {
    if |names| > MAX_LIST then MAX_LIST else |names|
  }

  predicate Fits(fields: seq<JField>) {
    Size(JObject(fields)) <= MAX_BYTES
  }

  /** How many names the loop ends with, from m on. */
  function FitFrom(names: seq<string>, m: nat): nat
    requires m <= MaxShown(names)
    decreases MaxShown(names) - m
  {
    if m == MaxShown(names) || !Fits(Fallback(names, m + 1)) then m else FitFrom(names, m + 1)
  }

  predicate Plain(s: string) {
    forall i :: 0 <= i < |s| ==> 0x20 <= s[i] as int < 0x80 && s[i] != '"' && s[i] != '\\'
  }

  lemma {:induction false} PlainSize(s: string)
    requires Plain(s)
    ensures CharsSize(s) == |s|
  {
    if s != "" {
      PlainSize(s[..|s| - 1]);
    }
  }

  lemma {:induction false} ListSizePrefix(a: seq<Json>, b: seq<Json>, i: nat)
    requires i <= |a| <= |b| && a == b[..|a|]
    ensures ListSize(JList(a), i) == ListSize(JList(b), i)
    decreases i
  {
    if i > 0 {
      ListSizePrefix(a, b, i - 1);
    }
  }

  lemma ThreeFields(a: JField, b: JField, c: JField)
    ensures Size(JObject([a, b, c])) ==
      7 + StringSize(a.key) + Size(a.value) + StringSize(b.key) + Size(b.value) + StringSize(c.key) + Size(c.value)
  {
    var j := JObject([a, b, c]);
    assert ObjectSize(j, 1) == StringSize(a.key) + 1 + Size(a.value);
    assert ObjectSize(j, 2) == ObjectSize(j, 1) + 2 + StringSize(b.key) + Size(b.value);
    assert ObjectSize(j, 3) == ObjectSize(j, 2) + 2 + StringSize(c.key) + Size(c.value);
  }

  lemma FallbackSize(names: seq<string>, m: nat)
    requires m <= |names|
    ensures Size(JObject(Fallback(names, m))) == 45 + Digits(|names|) + ListSize(JList(Shown(names, m)), m)
  {
    PlainSize("truncated");
    PlainSize("field_count");
    PlainSize("fields");
    ThreeFields(JField("truncated", JBool(true)), JField("field_count", JInt(|names|)), JField("fields", JList(Shown(names, m))));
  }

  /** One more name never makes the fallback smaller. */
  lemma FallbackGrows(names: seq<string>, m: nat)
    requires m < |names|
    ensures Size(JObject(Fallback(names, m))) < Size(JObject(Fallback(names, m + 1)))
  {
    FallbackSize(names, m);
    FallbackSize(names, m + 1);
    ListSizePrefix(Shown(names, m), Shown(names, m + 1), m);
  }

  lemma {:induction false} FallbackGrowsTo(names: seq<string>, m: nat, n: nat)
    requires m <= n <= |names|
    ensures Size(JObject(Fallback(names, m))) <= Size(JObject(Fallback(names, n)))
    decreases n - m
  {
    if m < n {
      FallbackGrowsTo(names, m, n - 1);
      FallbackGrows(names, n - 1);
    }
  }

  lemma EmptyFallbackFits(names: seq<string>)
    requires |names| < MAX_LENGTH
    ensures Fits(Fallback(names, 0))
  {
    FallbackSize(names, 0);
    LengthDigits(|names|);
  }

  lemma {:induction false} FitFromSpec(names: seq<string>, m: nat)
    requires m <= MaxShown(names) && Fits(Fallback(names, m))
    ensures m <= FitFrom(names, m) <= MaxShown(names) && Fits(Fallback(names, FitFrom(names, m)))
    ensures FitFrom(names, m) < MaxShown(names) ==> !Fits(Fallback(names, FitFrom(names, m) + 1))
    decreases MaxShown(names) - m
  {
    if !(m == MaxShown(names) || !Fits(Fallback(names, m + 1))) {
      FitFromSpec(names, m + 1);
    }
  }

  /** The fallback fits, and no longer leading run of at most 50 names does. */
  lemma FallbackIsLongest(names: seq<string>, n: nat)
    requires |names| < MAX_LENGTH && n <= MaxShown(names)
    ensures FitFrom(names, 0) <= MaxShown(names) && (Fits(Fallback(names, n)) <==> n <= FitFrom(names, 0))
  {
    EmptyFallbackFits(names);
    FitFromSpec(names, 0);
    var m := FitFrom(names, 0);
    if n <= m {
      FallbackGrowsTo(names, n, m);
    } else {
      FallbackGrowsTo(names, m + 1, n);
    }
  }

  /** Builds the fallback one name at a time, dropping the name that does not fit. */
  method OversizedFallback(names: seq<string>) returns (fallback: seq<JField>)
    requires |names| < MAX_LENGTH
    ensures FitFrom(names, 0) <= |names| && fallback == Fallback(names, FitFrom(names, 0))
    ensures Fits(fallback)
  {
    EmptyFallbackFits(names);
    var m := 0;
    while m < MaxShown(names)
      invariant m <= MaxShown(names) && FitFrom(names, m) == FitFrom(names, 0) && Fits(Fallback(names, m))
    {
      if !Fits(Fallback(names, m + 1)) {
        break;
      }
      m := m + 1;
    }
    fallback := Fallback(names, m);
  }

  lemma {:induction false} FitFromBound(names: seq<string>, m: nat)
    requires m <= MaxShown(names)
    ensures FitFrom(names, m) <= |names|
    decreases MaxShown(names) - m
  {
    if !(m == MaxShown(names) || !Fits(Fallback(names, m + 1))) {
      FitFromBound(names, m + 1);
    }
  }

  // ── The entry point ───────────────────────────────────────────────────

  function Sanitize(lower: Lower, summary: seq<Field>): seq<JField> {
    var cleaned := CleanFields(lower, summary, 1);
    if summary == [] then []
    else if Fits(cleaned) then cleaned
    else
      FitFromBound(Keys(cleaned), 0);
      Fallback(Keys(cleaned), FitFrom(Keys(cleaned), 0))
  }

  /** The length of the serialized text in bytes. */
  function Bytes(fields: seq<JField>): nat {
    Utf8Length(Text(JObject(fields)))
  }

  /** The fallback that shows m names: each is a cleaned field's, in order, cut to 64 characters. */
  ghost predicate NamesRun(cleaned: seq<JField>, m: nat, r: seq<JField>) {
    && m <= 50 && m <= |cleaned| && |r| == 3
    && r[0] == JField("truncated", JBool(true)) && r[1] == JField("field_count", JInt(|cleaned|))
    && r[2].key == "fields" && r[2].value.JList? && |r[2].value.items| == m
    && forall i :: 0 <= i < m ==> r[2].value.items[i].JStr? && IsCut(cleaned[i].key, 64, r[2].value.items[i].s)
  }

  /** The run fits into 4096 bytes, and no longer one does. */
  ghost predicate LongestRun(cleaned: seq<JField>, m: nat, r: seq<JField>) {
    && NamesRun(cleaned, m, r) && Bytes(r) <= 4096
    && forall n: nat, other :: m < n && NamesRun(cleaned, n, other) ==> Bytes(other) > 4096
  }

  /** The cleaned fields when they fit into 4096 bytes, and otherwise the longest run of their names that does. */
  ghost predicate SummaryOf(cleaned: seq<JField>, result: seq<JField>) {
    && (Bytes(cleaned) <= 4096 ==> result == cleaned)
    && (Bytes(cleaned) > 4096 ==> exists m: nat :: LongestRun(cleaned, m, result))
  }

  ghost predicate IsSummary(lower: Lower, summary: seq<Field>, result: seq<JField>) {
    exists cleaned :: ShowsFields(lower, Mapping(summary), 1, cleaned) && SummaryOf(cleaned, result)
  }

  lemma ThreeAre(r: seq<JField>, a: JField, b: JField, c: JField)
    requires |r| == 3 && r[0] == a && r[1] == b && r[2] == c
    ensures r == [a, b, c]
  {
  }

  lemma RunParts(cleaned: seq<JField>, m: nat, r: seq<JField>)
    requires m <= |cleaned| && NamesRun(cleaned, m, r)
    ensures r[2] == JField("fields", JList(Shown(Keys(cleaned), m)))
  {
    RunItems(cleaned, m, r[2].value.items);
  }

  lemma RunIsFallback(cleaned: seq<JField>, m: nat, r: seq<JField>)
    requires m <= |cleaned| && NamesRun(cleaned, m, r)
    ensures r == Fallback(Keys(cleaned), m)
  {
    RunParts(cleaned, m, r);
    ThreeAre(r, JField("truncated", JBool(true)), JField("field_count", JInt(|cleaned|)), JField("fields", JList(Shown(Keys(cleaned), m))));
  }

  lemma FallbackIsRun(cleaned: seq<JField>, m: nat)
    requires m <= 50 && m <= |cleaned|
    ensures NamesRun(cleaned, m, Fallback(Keys(cleaned), m))
  {
    RunItems(cleaned, m, Shown(Keys(cleaned), m));
  }

  lemma RunItems(cleaned: seq<JField>, m: nat, items: seq<Json>)
    requires m <= |cleaned| && |items| == m
    ensures (forall i :: 0 <= i < m ==> items[i].JStr? && IsCut(cleaned[i].key, 64, items[i].s)) <==> items == Shown(Keys(cleaned), m)
  {
    forall i | 0 <= i < m
      ensures items[i].JStr? && IsCut(cleaned[i].key, 64, items[i].s) <==> items[i] == Shown(Keys(cleaned), m)[i]
    {
    }
  }

  lemma FallbackIsLongestRun(cleaned: seq<JField>)
    requires |cleaned| < MAX_LENGTH
    ensures var m := FitFrom(Keys(cleaned), 0); m <= |cleaned| && LongestRun(cleaned, m, Fallback(Keys(cleaned), m))
  {
    var names := Keys(cleaned);
    FallbackIsLongest(names, 0);
    var m := FitFrom(names, 0);
    FallbackIsRun(cleaned, m);
    FallbackIsLongest(names, m);
    SizeIsTextLength(JObject(Fallback(names, m)));
    forall n: nat, other | m < n && NamesRun(cleaned, n, other)
      ensures Bytes(other) > 4096
    {
      RunIsFallback(cleaned, n, other);
      FallbackIsLongest(names, n);
      SizeIsTextLength(JObject(other));
    }
  }

  /** What is returned for a summary, from its fields alone. */
  lemma SummaryIs(lower: Lower, summary: seq<Field>)
    requires |summary| < MAX_LENGTH
    ensures IsSummary(lower, summary, Sanitize(lower, summary))
  {
    var cleaned := CleanFields(lower, summary, 1);
    CleanFieldsShow(lower, Mapping(summary), 1);
    CleanedLength(lower, summary, 1);
    SizeIsTextLength(JObject(cleaned));
    FallbackIsLongestRun(cleaned);
    SanitizedFields(lower, summary, cleaned);
    assert SummaryOf(cleaned, Sanitize(lower, summary));
  }

  /** None and an empty mapping give an empty summary. */
  method SanitizeSummary(lower: Lower, summary: Option<seq<Field>>) returns (result: seq<JField>)
    requires summary.Some? ==> |summary.value| < MAX_LENGTH
    ensures result == if summary.None? then [] else Sanitize(lower, summary.value)
    ensures Fits(result) && Bytes(result) <= 4096
    ensures summary.Some? ==> IsSummary(lower, summary.value, result)
  {
    SummaryIs(lower, if summary.None? then [] else summary.value);
    SizeIsTextLength(JObject(if summary.None? then [] else Sanitize(lower, summary.value)));
    if summary.None? || summary.value == [] {
      return [];
    }
    var fields := summary.value;
    result := [];
    for i := 0 to |fields|
      invariant result == CleanFields(lower, fields[..i], 1) && |result| <= i
    {
      assert fields[..i + 1][..i] == fields[..i];
      PutLength(result, Clip(fields[i].key, MAX_STRING), JNull);
      result := AddField(lower, result, fields[i].key, Clean(lower, fields[i].value, 1));
    }
    assert fields[..|fields|] == fields;
    if !Fits(result) {
      result := OversizedFallback(Keys(result));
    }
  }

  lemma {:induction false} PutLength(fields: seq<JField>, key: string, value: Json)
    ensures forall v :: |Put(fields, key, v)| == |Put(fields, key, value)|
    ensures |fields| <= |Put(fields, key, value)| <= |fields| + 1
  {
    if fields != [] {
      PutLength(fields[1..], key, value);
    }
  }

  lemma {:induction false} CleanedLength(lower: Lower, fields: seq<Field>, level: nat)
    requires 1 <= level <= MAX_DEPTH
    ensures |CleanFields(lower, fields, level)| <= |fields|
  {
    if fields != [] {
      var front := fields[..|fields| - 1];
      CleanedLength(lower, front, level);
      PutLength(CleanFields(lower, front, level), Clip(fields[|fields| - 1].key, MAX_STRING), JNull);
    }
  }

  /** Lower-casing leaves the fallback's own keys as they are. */
  ghost predicate LowerLaw(lower: Lower) {
    lower("truncated") == "truncated" && lower("field_count") == "field_count" && lower("fields") == "fields"
  }

  lemma MissingChar(s: string, part: string, j: nat)
    requires j < |part| && part[j] !in s
    ensures !Contains(s, part)
  {
  }

  ghost predicate NonePresent(s: string, parts: set<string>) {
    forall part :: part in parts ==> !Contains(s, part)
  }

  lemma TruncatedAllowed(lower: Lower)
    requires LowerLaw(lower)
    ensures KeyAllowed(lower, "truncated")
  {
    TruncatedFirstParts();
    TruncatedLastParts();
  }

  lemma TruncatedFirstParts()
    ensures NonePresent("truncated", {"key", "secret", "token", "password", "passwd", "authorization", "auth_header", "cookie"})
  {
    MissingChar("truncated", "key", 0);
    MissingChar("truncated", "secret", 0);
    MissingChar("truncated", "token", 1);
    MissingChar("truncated", "password", 0);
    MissingChar("truncated", "passwd", 0);
    MissingChar("truncated", "authorization", 3);
    MissingChar("truncated", "auth_header", 3);
    MissingChar("truncated", "cookie", 1);
  }

  lemma TruncatedLastParts()
    ensures NonePresent("truncated", {"credential", "prompt", "response", "content", "body", "headers", "raw"})
  {
    MissingChar("truncated", "credential", 7);
    MissingChar("truncated", "prompt", 0);
    MissingChar("truncated", "response", 2);
    MissingChar("truncated", "content", 1);
    MissingChar("truncated", "body", 0);
    MissingChar("truncated", "headers", 0);
    MissingChar("truncated", "raw", 2);
  }

  lemma FieldsAllowed(lower: Lower)
    requires LowerLaw(lower)
    ensures KeyAllowed(lower, "fields")
  {
    var s := "fields";
    MissingChar(s, "key", 0);
    MissingChar(s, "secret", 2);
    MissingChar(s, "token", 0);
    MissingChar(s, "password", 0);
    MissingChar(s, "passwd", 0);
    MissingChar(s, "authorization", 0);
    MissingChar(s, "auth_header", 0);
    MissingChar(s, "cookie", 0);
    MissingChar(s, "credential", 0);
    MissingChar(s, "prompt", 0);
    MissingChar(s, "response", 0);
    MissingChar(s, "content", 0);
    MissingChar(s, "body", 0);
    MissingChar(s, "headers", 0);
    MissingChar(s, "raw", 0);
  }

  /** "content" has every letter in "field_count", but not in a row. */
  lemma FieldCountAllowed(lower: Lower)
    requires LowerLaw(lower)
    ensures KeyAllowed(lower, "field_count")
  {
    FieldCountFirstParts();
    FieldCountLastParts();
  }

  lemma FieldCountFirstParts()
    ensures NonePresent("field_count", {"key", "secret", "token", "password", "passwd", "authorization", "auth_header", "cookie"})
  {
    MissingChar("field_count", "key", 0);
    MissingChar("field_count", "secret", 0);
    MissingChar("field_count", "token", 2);
    MissingChar("field_count", "password", 0);
    MissingChar("field_count", "passwd", 0);
    MissingChar("field_count", "authorization", 0);
    MissingChar("field_count", "auth_header", 0);
    MissingChar("field_count", "cookie", 3);
  }

  lemma FieldCountLastParts()
    ensures NonePresent("field_count", {"credential", "prompt", "response", "content", "body", "headers", "raw"})
  {
    MissingChar("field_count", "credential", 1);
    MissingChar("field_count", "prompt", 0);
    MissingChar("field_count", "response", 0);
    NoContent("field_count");
    MissingChar("field_count", "body", 0);
    MissingChar("field_count", "headers", 0);
    MissingChar("field_count", "raw", 0);
  }

  lemma NoContent(s: string)
    requires s == "field_count"
    ensures !Contains(s, "content")
  {
    forall i: nat
      ensures !OccursAt(s, "content", i)
    {
      FirstCharDiffers(s, "content", i);
    }
  }

  lemma FirstCharDiffers(s: string, part: string, i: nat)
    requires part != "" && (i + |part| <= |s| ==> s[i] != part[0])
    ensures !OccursAt(s, part, i)
  {
  }

  lemma FallbackSafe(lower: Lower, names: seq<string>, m: nat, limit: nat)
    requires LowerLaw(lower) && m <= |names| && m <= MAX_LIST && limit >= MAX_STRING
    ensures SafeFields(lower, Fallback(names, m), MAX_DEPTH - 1, limit)
  {
    TruncatedAllowed(lower);
    FieldCountAllowed(lower);
    FieldsAllowed(lower);
    var fields := JList(Shown(names, m));
    assert Safe(lower, fields, MAX_DEPTH - 1, limit);
  }

  /** Every summary is sanitized to at most 4096 bytes, three container levels, lists of 50 items and a marker, and no denied key;
      strings stay within any limit of at least 256 that leaves room for the type names and their brackets. */
  lemma SanitizedIsSafe(lower: Lower, summary: seq<Field>, limit: nat)
    requires LowerLaw(lower) && limit >= MAX_STRING && BoundedFields(summary, limit - 2)
    ensures Fits(Sanitize(lower, summary)) && Safe(lower, JObject(Sanitize(lower, summary)), MAX_DEPTH, limit)
  {
    CleanFieldsSafe(lower, summary, 1, limit);
    CleanedLength(lower, summary, 1);
    var names := Keys(CleanFields(lower, summary, 1));
    FallbackIsLongest(names, 0);
    EmptyFallbackFits(names);
    FitFromSpec(names, 0);
    FallbackSafe(lower, names, FitFrom(names, 0), limit);
    assert Fits([]);
  }

  /** A summary that fits is kept; one that does not names the longest leading run of its fields, at most 50, that fits. */
  lemma OversizedNamesFields(lower: Lower, summary: seq<Field>, cleaned: seq<JField>, n: nat)
    requires |summary| < MAX_LENGTH && summary != [] && cleaned == CleanFields(lower, summary, 1)
    requires n <= MaxShown(Keys(cleaned))
    ensures FitFrom(Keys(cleaned), 0) <= MaxShown(Keys(cleaned))
    ensures Fits(cleaned) ==> Sanitize(lower, summary) == cleaned
    ensures !Fits(cleaned) ==> Sanitize(lower, summary) == Fallback(Keys(cleaned), FitFrom(Keys(cleaned), 0))
    ensures Fits(Fallback(Keys(cleaned), n)) <==> n <= FitFrom(Keys(cleaned), 0)
  {
    CleanedLength(lower, summary, 1);
    FallbackIsLongest(Keys(cleaned), n);
    SanitizedFields(lower, summary, cleaned);
  }

  // ── Strings over 256 characters ───────────────────────────────────────

  function Repeated(c: char, n: nat): (s: string)
    ensures |s| == n && forall i :: 0 <= i < n ==> s[i] == c
  {
    if n == 0 then "" else Repeated(c, n - 1) + [c]
  }

  /** A value of a type whose name has n characters, under an allowed key. */
  function Exotic(n: nat): seq<Field> {
    [Field("api_key_id", Other(Repeated('T', n)))]
  }

  lemma ExoticShown(lower: Lower, n: nat)
    ensures CleanFields(lower, Exotic(n), 1) == [JField("api_key_id", JStr("<" + Repeated('T', n) + ">"))]
  {
    assert Exotic(n)[..0] == [];
  }

  lemma OneFieldSize(f: JField)
    ensures Size(JObject([f])) == 3 + StringSize(f.key) + Size(f.value)
  {
    var j := JObject([f]);
    assert ObjectSize(j, 1) == StringSize(f.key) + 1 + Size(f.value);
  }

  /** Containers are dropped at the innermost level; every other value is shown. */
  predicate IsContainer(v: Val) {
    match v
    case EnumOf(inner) => IsContainer(inner)
    case Mapping(_) => true
    case Items(_) => true
    case _ => false
  }

  predicate IsShown(v: Val, level: nat) {
    level < MAX_DEPTH || !IsContainer(v)
  }

  /** Every type name the cleaning reaches in the value leaves room for its brackets. */
  predicate NamesFit(lower: Lower, v: Val, level: nat)
    requires 1 <= level <= MAX_DEPTH
    decreases MAX_DEPTH - level, 0, v
  {
    match v
    case EnumOf(inner) => NamesFit(lower, inner, level)
    case Mapping(fields) => level < MAX_DEPTH ==> FieldNamesFit(lower, fields, level + 1, {})
    case Items(items) => level < MAX_DEPTH ==> ItemNamesFit(lower, items, level + 1)
    case Other(name) => |name| <= MAX_STRING - 2
    case _ => true
  }

  predicate ItemNamesFit(lower: Lower, items: seq<Val>, level: nat)
    requires 1 <= level <= MAX_DEPTH
    decreases MAX_DEPTH - level, 1, |items|
  {
    forall i :: 0 <= i < |items| && i < MAX_LIST ==> NamesFit(lower, items[i], level)
  }

  /** The same for the fields of a mapping: a denied key hides its value, and so does a later field that takes its clipped key. */
  predicate FieldNamesFit(lower: Lower, fields: seq<Field>, level: nat, later: set<string>)
    requires 1 <= level <= MAX_DEPTH
    decreases MAX_DEPTH - level, 1, |fields|
  {
    fields != [] ==>
      var front, last := fields[..|fields| - 1], fields[|fields| - 1];
      var key := Clip(last.key, MAX_STRING);
      if KeyAllowed(lower, key) && IsShown(last.value, level) then
        (key in later || NamesFit(lower, last.value, level)) && FieldNamesFit(lower, front, level, later + {key})
      else FieldNamesFit(lower, front, level, later)
  }

  /** Its lists are no longer than a list can be. */
  predicate Sized(v: Val)
    decreases v
  {
    match v
    case EnumOf(inner) => Sized(inner)
    case Mapping(fields) => forall i :: 0 <= i < |fields| ==> Sized(fields[i].value)
    case Items(items) => |items| < MAX_LENGTH && forall i :: 0 <= i < |items| ==> Sized(items[i])
    case _ => true
  }

  predicate SizedFields(fields: seq<Field>) {
    forall i :: 0 <= i < |fields| ==> Sized(fields[i].value)
  }

  /** SafeFields, except that the values under some keys do not matter. */
  ghost predicate SafeExcept(lower: Lower, fields: seq<JField>, depth: nat, except: set<string>) {
    forall i :: 0 <= i < |fields| ==>
      KeyAllowed(lower, fields[i].key) && |fields[i].key| <= MAX_STRING
      && (fields[i].key in except || Safe(lower, fields[i].value, depth, MAX_STRING))
  }

  ghost predicate KeysOnce(fields: seq<JField>) {
    forall i, j :: 0 <= i < j < |fields| ==> fields[i].key != fields[j].key
  }

  predicate HasKey(fields: seq<JField>, key: string) {
    exists i :: 0 <= i < |fields| && fields[i].key == key
  }

  lemma {:induction false} PutKeys(fields: seq<JField>, key: string, value: Json)
    requires KeysOnce(fields)
    ensures KeysOnce(Put(fields, key, value))
    ensures forall k :: HasKey(Put(fields, key, value), k) <==> k == key || HasKey(fields, k)
  {
    if fields == [] {
      assert Put(fields, key, value)[0].key == key;
    } else {
      var rest := fields[1..];
      var now := Put(fields, key, value);
      assert fields == [fields[0]] + rest;
      if fields[0].key == key {
        assert now[0].key == key && now[1..] == rest;
        SameKeys(fields, now);
      } else {
        PutKeys(rest, key, value);
        assert forall i :: 0 <= i < |rest| ==> rest[i] == fields[i + 1];
        assert !HasKey(rest, fields[0].key);
        HeadKeys(fields[0], rest);
        HeadKeys(fields[0], Put(rest, key, value));
        HeadOnce(fields[0], Put(rest, key, value));
      }
    }
  }

  lemma SameKeys(a: seq<JField>, b: seq<JField>)
    requires |a| == |b| && forall i :: 0 <= i < |a| ==> a[i].key == b[i].key
    ensures forall k :: HasKey(a, k) <==> HasKey(b, k)
  {
  }

  lemma HeadKeys(head: JField, rest: seq<JField>)
    ensures forall k :: HasKey([head] + rest, k) <==> k == head.key || HasKey(rest, k)
  {
    forall k
      ensures HasKey([head] + rest, k) <==> k == head.key || HasKey(rest, k)
    {
      var all := [head] + rest;
      assert all[0] == head && forall i :: 0 <= i < |rest| ==> all[i + 1] == rest[i];
      if i :| 0 <= i < |rest| && rest[i].key == k {
        assert all[i + 1].key == k;
      }
    }
  }

  lemma HeadOnce(head: JField, rest: seq<JField>)
    requires KeysOnce(rest) && !HasKey(rest, head.key)
    ensures KeysOnce([head] + rest)
  {
  }

  lemma {:induction false} CleanedKeysOnce(lower: Lower, fields: seq<Field>, level: nat)
    requires 1 <= level <= MAX_DEPTH
    ensures KeysOnce(CleanFields(lower, fields, level))
    decreases |fields|
  {
    if fields != [] {
      var front, last := fields[..|fields| - 1], fields[|fields| - 1];
      CleanedKeysOnce(lower, front, level);
      var c := Clean(lower, last.value, level);
      if c.Some? {
        PutKeys(CleanFields(lower, front, level), Clip(last.key, MAX_STRING), c.value);
      }
    }
  }

  /** Writing a key: its old value no longer matters, and the new one does unless its key is excepted. */
  lemma {:induction false} PutSafeIff(lower: Lower, fields: seq<JField>, key: string, value: Json, depth: nat, except: set<string>)
    requires KeysOnce(fields) && KeyAllowed(lower, key) && |key| <= MAX_STRING
    ensures SafeExcept(lower, Put(fields, key, value), depth, except) <==>
      SafeExcept(lower, fields, depth, except + {key}) && (key in except || Safe(lower, value, depth, MAX_STRING))
  {
    if fields == [] {
      ExceptHead(lower, JField(key, value), [], depth, except);
      assert Put(fields, key, value) == [JField(key, value)] + [];
    } else if fields[0].key == key {
      var rest := fields[1..];
      assert fields == [fields[0]] + rest;
      ExceptHead(lower, JField(key, value), rest, depth, except);
      ExceptHead(lower, fields[0], rest, depth, except + {key});
      ExceptAbsent(lower, rest, depth, except, key);
    } else {
      var rest := fields[1..];
      assert fields == [fields[0]] + rest;
      PutSafeIff(lower, rest, key, value, depth, except);
      ExceptHead(lower, fields[0], Put(rest, key, value), depth, except);
      ExceptHead(lower, fields[0], rest, depth, except + {key});
    }
  }

  lemma ExceptHead(lower: Lower, head: JField, rest: seq<JField>, depth: nat, except: set<string>)
    ensures SafeExcept(lower, [head] + rest, depth, except) <==>
      SafeExcept(lower, rest, depth, except) && KeyAllowed(lower, head.key) && |head.key| <= MAX_STRING
      && (head.key in except || Safe(lower, head.value, depth, MAX_STRING))
  {
    var all := [head] + rest;
    assert all[0] == head && forall i :: 0 <= i < |rest| ==> all[i + 1] == rest[i];
  }

  lemma ExceptAbsent(lower: Lower, fields: seq<JField>, depth: nat, except: set<string>, key: string)
    requires forall i :: 0 <= i < |fields| ==> fields[i].key != key
    ensures SafeExcept(lower, fields, depth, except + {key}) <==> SafeExcept(lower, fields, depth, except)
  {
  }

  lemma {:induction false} ShownIff(lower: Lower, v: Val, level: nat)
    requires 1 <= level <= MAX_DEPTH
    ensures Clean(lower, v, level).Some? <==> IsShown(v, level)
    ensures !IsShown(v, level) ==> NamesFit(lower, v, level)
    decreases v
  {
    if v.EnumOf? {
      ShownIff(lower, v.inner, level);
    }
  }

  /** A shown value is safe exactly when the names reached in it fit. */
  lemma {:induction false} CleanSafeIff(lower: Lower, v: Val, level: nat)
    requires 1 <= level <= MAX_DEPTH && Sized(v)
    ensures var c := Clean(lower, v, level);
      c.Some? ==> (Safe(lower, c.value, MAX_DEPTH - level, MAX_STRING) <==> NamesFit(lower, v, level))
    decreases MAX_DEPTH - level, 0, v
  {
    match v
    case EnumOf(inner) => CleanSafeIff(lower, inner, level);
    case Mapping(fields) =>
      if level < MAX_DEPTH {
        CleanFieldsSafeIff(lower, fields, level + 1, {});
        NoExcept(lower, CleanFields(lower, fields, level + 1), MAX_DEPTH - level - 1);
      }
    case Items(items) =>
      if level < MAX_DEPTH {
        ClipListSafeIff(lower, items, level + 1);
      }
    case _ =>
  }

  lemma NoExcept(lower: Lower, fields: seq<JField>, depth: nat)
    ensures SafeExcept(lower, fields, depth, {}) <==> SafeFields(lower, fields, depth, MAX_STRING)
  {
  }

  lemma {:induction false} CleanFieldsSafeIff(lower: Lower, fields: seq<Field>, level: nat, later: set<string>)
    requires 1 <= level <= MAX_DEPTH && SizedFields(fields)
    ensures SafeExcept(lower, CleanFields(lower, fields, level), MAX_DEPTH - level, later) <==> FieldNamesFit(lower, fields, level, later)
    decreases MAX_DEPTH - level, 1, |fields|
  {
    if fields != [] {
      var front, last := fields[..|fields| - 1], fields[|fields| - 1];
      var key, c, before := Clip(last.key, MAX_STRING), Clean(lower, last.value, level), CleanFields(lower, front, level);
      ShownIff(lower, last.value, level);
      if KeyAllowed(lower, key) && c.Some? {
        CleanFieldsSafeIff(lower, front, level, later + {key});
        CleanSafeIff(lower, last.value, level);
        CleanedKeysOnce(lower, front, level);
        PutSafeIff(lower, before, key, c.value, MAX_DEPTH - level, later);
      } else {
        CleanFieldsSafeIff(lower, front, level, later);
      }
    }
  }

  lemma {:induction false} CleanItemsSafeIff(lower: Lower, items: seq<Val>, level: nat)
    requires 1 <= level <= MAX_DEPTH && forall i :: 0 <= i < |items| ==> Sized(items[i])
    ensures SafeItems(lower, CleanItems(lower, items, level), MAX_DEPTH - level, MAX_STRING) <==> AllNamesFit(lower, items, level)
    decreases MAX_DEPTH - level, 1, |items|
  {
    if items != [] {
      var front, last := items[..|items| - 1], items[|items| - 1];
      CleanItemsSafeIff(lower, front, level);
      CleanSafeIff(lower, last, level);
      ShownIff(lower, last, level);
      var c, before := Clean(lower, last, level), CleanItems(lower, front, level);
      if c.Some? {
        SafeItemsAppend(lower, before, c.value, MAX_DEPTH - level);
        assert CleanItems(lower, items, level) == before + [c.value];
      } else {
        assert CleanItems(lower, items, level) == before;
      }
      AllNamesAppend(lower, front, last, level);
      assert items == front + [last];
    }
  }

  /** Every item's names fit. */
  ghost predicate AllNamesFit(lower: Lower, items: seq<Val>, level: nat)
    requires 1 <= level <= MAX_DEPTH
  {
    forall i :: 0 <= i < |items| ==> NamesFit(lower, items[i], level)
  }

  lemma AllNamesAppend(lower: Lower, front: seq<Val>, last: Val, level: nat)
    requires 1 <= level <= MAX_DEPTH
    ensures AllNamesFit(lower, front + [last], level) <==> AllNamesFit(lower, front, level) && NamesFit(lower, last, level)
  {
    var all := front + [last];
    assert all[|front|] == last && forall i :: 0 <= i < |front| ==> all[i] == front[i];
  }

  lemma SafeItemsAppend(lower: Lower, items: seq<Json>, j: Json, depth: nat)
    ensures SafeItems(lower, items + [j], depth, MAX_STRING) <==>
      SafeItems(lower, items, depth, MAX_STRING) && Safe(lower, j, depth, MAX_STRING)
  {
    var all := items + [j];
    assert all[|items|] == j && forall i :: 0 <= i < |items| ==> all[i] == items[i];
  }

  lemma {:induction false} ClipListSafeIff(lower: Lower, items: seq<Val>, level: nat)
    requires 1 <= level <= MAX_DEPTH && |items| < MAX_LENGTH && forall i :: 0 <= i < |items| ==> Sized(items[i])
    ensures SafeItems(lower, ClipList(lower, items, level), MAX_DEPTH - level, MAX_STRING) <==> ItemNamesFit(lower, items, level)
    ensures |ClipList(lower, items, level)| <= MAX_LIST + 1
    decreases MAX_DEPTH - level, 2, 0
  {
    if |items| > MAX_LIST {
      var shown := items[..MAX_LIST];
      CleanItemsSafeIff(lower, shown, level);
      LengthDigits(|items| - MAX_LIST);
      SafeItemsAppend(lower, CleanItems(lower, shown, level), JStr(Marker(|items| - MAX_LIST)), MAX_DEPTH - level);
      assert AllNamesFit(lower, shown, level) <==> ItemNamesFit(lower, items, level);
    } else {
      CleanItemsSafeIff(lower, items, level);
    }
  }

  /**
   * A type name is shown whole, in brackets, so a summary's strings do not always stay within 256 characters. They do
   * exactly when the summary is replaced by the list of its field names, or no type name it shows is longer than 254.
   */
  lemma StringLimitExact(lower: Lower, summary: seq<Field>)
    requires LowerLaw(lower) && |summary| < MAX_LENGTH && SizedFields(summary)
    ensures Safe(lower, JObject(Sanitize(lower, summary)), MAX_DEPTH, MAX_STRING) <==>
      !Fits(CleanFields(lower, summary, 1)) || FieldNamesFit(lower, summary, 1, {})
  {
    var cleaned := CleanFields(lower, summary, 1);
    CleanFieldsSafeIff(lower, summary, 1, {});
    NoExcept(lower, cleaned, MAX_DEPTH - 1);
    CleanedLength(lower, summary, 1);
    FallbackIsLongest(Keys(cleaned), 0);
    FallbackSafe(lower, Keys(cleaned), FitFrom(Keys(cleaned), 0), MAX_STRING);
    SanitizedFields(lower, summary, cleaned);
    AsObject(lower, Sanitize(lower, summary));
  }

  lemma SanitizedFields(lower: Lower, summary: seq<Field>, cleaned: seq<JField>)
    requires cleaned == CleanFields(lower, summary, 1) && FitFrom(Keys(cleaned), 0) <= |Keys(cleaned)|
    ensures Sanitize(lower, summary) == if Fits(cleaned) then cleaned else Fallback(Keys(cleaned), FitFrom(Keys(cleaned), 0))
  {
    assert Fits([]);
  }

  lemma AsObject(lower: Lower, fields: seq<JField>)
    ensures Safe(lower, JObject(fields), MAX_DEPTH, MAX_STRING) <==> SafeFields(lower, fields, MAX_DEPTH - 1, MAX_STRING)
  {
  }

  /** Whatever the summaries are made of, names of at most 254 characters are enough, and no weaker bound is. */
  lemma NameBoundExact(lower: Lower, n: nat)
    requires LowerLaw(lower)
    ensures (forall summary :: BoundedFields(summary, n) ==> Safe(lower, JObject(Sanitize(lower, summary)), MAX_DEPTH, MAX_STRING))
       <==> n <= MAX_STRING - 2
  {
    if n <= MAX_STRING - 2 {
      forall summary | BoundedFields(summary, n)
        ensures Safe(lower, JObject(Sanitize(lower, summary)), MAX_DEPTH, MAX_STRING)
      {
        BoundedMonotone(summary, n, MAX_STRING - 2);
        SanitizedIsSafe(lower, summary, MAX_STRING);
      }
    } else {
      LongTypeName(lower);
      assert BoundedFields(Exotic(MAX_STRING - 1), n);
    }
  }

  lemma {:induction false} ValBoundedMonotone(v: Val, a: nat, b: nat)
    requires Bounded(v, a) && a <= b
    ensures Bounded(v, b)
    decreases v
  {
    match v
    case EnumOf(inner) => ValBoundedMonotone(inner, a, b);
    case Mapping(fields) =>
      forall i | 0 <= i < |fields|
        ensures Bounded(fields[i].value, b)
      {
        ValBoundedMonotone(fields[i].value, a, b);
      }
    case Items(items) =>
      forall i | 0 <= i < |items|
        ensures Bounded(items[i], b)
      {
        ValBoundedMonotone(items[i], a, b);
      }
    case _ =>
  }

  lemma BoundedMonotone(fields: seq<Field>, a: nat, b: nat)
    requires BoundedFields(fields, a) && a <= b
    ensures BoundedFields(fields, b)
  {
    forall i | 0 <= i < |fields|
      ensures Bounded(fields[i].value, b)
    {
      ValBoundedMonotone(fields[i].value, a, b);
    }
  }

  /** A type name of 255 characters gives a string of 257. */
  lemma LongTypeName(lower: Lower)
    ensures !Safe(lower, JObject(Sanitize(lower, Exotic(MAX_STRING - 1))), MAX_DEPTH, MAX_STRING)
  {
    var n := MAX_STRING - 1;
    var text := "<" + Repeated('T', n) + ">";
    ExoticShown(lower, n);
    PlainSize("api_key_id");
    PlainSize(text);
    OneFieldSize(JField("api_key_id", JStr(text)));
    var fields := [JField("api_key_id", JStr(text))];
    assert Sanitize(lower, Exotic(n)) == fields && |text| == MAX_STRING + 1;
    assert !Safe(lower, fields[0].value, MAX_DEPTH - 1, MAX_STRING);
  }
}
