/** JSON texts as RFC 8259 lays them out, extended with one defect that language models
    produce: a double quote inside a string that was not escaped.

    Printing is written with the text that follows as an argument: `Put(v, rest)` is the text
    of `v` followed by `rest`. */
module JsonText {

  /** Insignificant whitespace (section 2 of RFC 8259). */
  predicate JsonSpace(c: char) {
    c == ' ' || c == '\t' || c == '\n' || c == '\r'
  }

  predicate Blank(s: string) {
    forall i | 0 <= i < |s| :: JsonSpace(s[i])
  }

  /** One element of a string's body (section 7 of RFC 8259); `RawQuote` is the defect. */
  datatype Unit = Plain(c: char) | Escape(c: char) | Hex(digits: string) | RawQuote

  predicate HexDigit(c: char) {
    '0' <= c <= '9' || 'a' <= c <= 'f' || 'A' <= c <= 'F'
  }

  predicate UnitOk(u: Unit) {
    match u
    case Plain(c) => ' ' <= c && c != '"' && c != '\\'
    case Escape(c) =>
      c == '"' || c == '\\' || c == '/' || c == 'b' || c == 'f' || c == 'n' || c == 'r' || c == 't'
    case Hex(digits) => |digits| == 4 && forall i | 0 <= i < |digits| :: HexDigit(digits[i])
    case RawQuote => true
  }

  predicate BodyOk(body: seq<Unit>) {
    forall i | 0 <= i < |body| :: UnitOk(body[i])
  }

  /** A JSON value together with the whitespace around its parts. `pad` is the blank between
      the brackets of an empty array or object. */
  datatype Value =
    | Scalar(text: string)
    | Text(body: seq<Unit>)
    | Array(pad: string, items: Items)
    | Object(pad: string, members: Members)

  datatype Items =
    | NoItems
    | Item(before: string, value: Value, after: string, rest: Items)

  datatype Members =
    | NoMembers
    | Member(before: string, key: seq<Unit>, afterKey: string,
             beforeValue: string, value: Value, after: string, rest: Members)

  /** Characters of the literals `true`, `false`, `null` and of numbers; a superset is enough. */
  predicate ScalarText(s: string) {
    forall i | 0 <= i < |s| ::
      !JsonSpace(s[i]) && !IsBracket(s[i]) && s[i] != '"' && s[i] != '\\' && s[i] != ',' && s[i] != ':'
  }

  predicate IsBracket(c: char) {
    c == '{' || c == '}' || c == '[' || c == ']'
  }

  predicate WellFormed(v: Value) {
    match v
    case Scalar(text) => ScalarText(text)
    case Text(body) => BodyOk(body)
    case Array(pad, items) => Blank(pad) && ItemsWellFormed(items)
    case Object(pad, members) => Blank(pad) && MembersWellFormed(members)
  }

  predicate ItemsWellFormed(items: Items) {
    items.Item? ==>
      && Blank(items.before) && WellFormed(items.value) && Blank(items.after)
      && ItemsWellFormed(items.rest)
  }

  predicate MembersWellFormed(members: Members) {
    members.Member? ==>
      && Blank(members.before) && BodyOk(members.key) && Blank(members.afterKey)
      && Blank(members.beforeValue) && WellFormed(members.value) && Blank(members.after)
      && MembersWellFormed(members.rest)
  }

  // ----- Printing -----

  function PutUnit(u: Unit, rest: string): string {
    match u
    case Plain(c) => [c] + rest
    case Escape(c) => ['\\'] + ([c] + rest)
    case Hex(digits) => ['\\'] + (['u'] + (digits + rest))
    case RawQuote => ['"'] + rest
  }

  function PutBody(body: seq<Unit>, rest: string): string {
    if body == [] then rest else PutUnit(body[0], PutBody(body[1..], rest))
  }

  function PutText(body: seq<Unit>, rest: string): string {
    ['"'] + PutBody(body, ['"'] + rest)
  }

  function Put(v: Value, rest: string): string
    decreases v, 0
  {
    match v
    case Scalar(text) => text + rest
    case Text(body) => PutText(body, rest)
    case Array(pad, items) => ['['] + (pad + PutItems(items, [']'] + rest))
    case Object(pad, members) => ['{'] + (pad + PutMembers(members, ['}'] + rest))
  }

  function PutItems(items: Items, rest: string): string
    decreases items, 0
  {
    match items
    case NoItems => rest
    case Item(before, value, after, more) =>
      before + Put(value, after + PutItemsTail(more, rest))
  }

  /** The items after the first one, with the comma that separates them. */
  function PutItemsTail(more: Items, rest: string): string
    decreases more, 1
  {
    if more.NoItems? then rest else [','] + PutItems(more, rest)
  }

  function PutMembers(members: Members, rest: string): string
    decreases members, 0
  {
    match members
    case NoMembers => rest
    case Member(before, key, afterKey, beforeValue, value, after, more) =>
      before + PutText(key, afterKey + PutColonValue(beforeValue, value, after, PutMembersTail(more, rest)))
  }

  function PutColonValue(before: string, value: Value, after: string, rest: string): string
    decreases value, 1
  {
    [':'] + (before + Put(value, after + rest))
  }

  function PutMembersTail(more: Members, rest: string): string
    decreases more, 1
  {
    if more.NoMembers? then rest else [','] + PutMembers(more, rest)
  }

  function Print(v: Value): string {
    Put(v, "")
  }

  // ----- What the producer meant: every quote escaped -----

  function FixBody(body: seq<Unit>): (fixed: seq<Unit>)
    ensures |fixed| == |body|
    ensures RawQuote !in fixed
    ensures forall i | 0 <= i < |body| && !body[i].RawQuote? :: fixed[i] == body[i]
    ensures forall i | 0 <= i < |body| && body[i].RawQuote? :: fixed[i] == Escape('"')
  {
    seq(|body|, i requires 0 <= i < |body| => if body[i].RawQuote? then Escape('"') else body[i])
  }

  function Fix(v: Value): Value {
    match v
    case Scalar(_) => v
    case Text(body) => Text(FixBody(body))
    case Array(pad, items) => Array(pad, FixItems(items))
    case Object(pad, members) => Object(pad, FixMembers(members))
  }

  function FixItems(items: Items): Items {
    match items
    case NoItems => NoItems
    case Item(before, value, after, rest) => Item(before, Fix(value), after, FixItems(rest))
  }

  function FixMembers(members: Members): Members {
    match members
    case NoMembers => NoMembers
    case Member(before, key, afterKey, beforeValue, value, after, rest) =>
      Member(before, FixBody(key), afterKey, beforeValue, Fix(value), after, FixMembers(rest))
  }

  /** A valid JSON value: no quote inside any string is left raw. */
  predicate Valid(v: Value) {
    Fix(v) == v
  }

  // ----- Put(v, rest) is the text of v followed by rest -----

  lemma PutUnitSplit(u: Unit, a: string, rest: string)
    ensures PutUnit(u, a + rest) == PutUnit(u, a) + rest
  {
    match u
    case Plain(c) => Associate([c], a, rest);
    case Escape(c) =>
      Associate([c], a, rest);
      Associate(['\\'], [c] + a, rest);
    case Hex(digits) =>
      Associate(digits, a, rest);
      Associate(['u'], digits + a, rest);
      Associate(['\\'], ['u'] + (digits + a), rest);
    case RawQuote => Associate(['"'], a, rest);
  }

  lemma {:induction false} PutBodySplit(body: seq<Unit>, rest: string)
    ensures PutBody(body, rest) == PutBody(body, "") + rest
  {
    if body != [] {
      PutBodySplit(body[1..], rest);
      PutUnitSplit(body[0], PutBody(body[1..], ""), rest);
    }
  }

  lemma PutTextSplit(body: seq<Unit>, rest: string)
    ensures PutText(body, rest) == PutText(body, "") + rest
  {
    PutBodySplit(body, ['"'] + rest);
    PutBodySplit(body, ['"']);
    assert ['"'] + "" == ['"'];
  }

  lemma PutTextAppend(body: seq<Unit>, a: string, rest: string)
    ensures PutText(body, a + rest) == PutText(body, a) + rest
  {
    PutTextSplit(body, a + rest);
    PutTextSplit(body, a);
    Associate(PutText(body, ""), a, rest);
  }

  lemma Associate(a: string, b: string, c: string)
    ensures a + (b + c) == (a + b) + c
  {
  }

  lemma {:induction false} PutSplit(v: Value, rest: string)
    ensures Put(v, rest) == Print(v) + rest
    decreases v, 0
  {
    match v
    case Scalar(text) =>
    case Text(body) => PutTextSplit(body, rest);
    case Array(pad, items) =>
      PutItemsSplit(items, [']'] + rest);
      PutItemsSplit(items, [']']);
      assert [']'] + "" == [']'];
    case Object(pad, members) =>
      PutMembersSplit(members, ['}'] + rest);
      PutMembersSplit(members, ['}']);
      assert ['}'] + "" == ['}'];
  }

  lemma {:induction false} PutItemsSplit(items: Items, rest: string)
    ensures PutItems(items, rest) == PutItems(items, "") + rest
    decreases items, 0
  {
    match items
    case NoItems =>
    case Item(before, value, after, more) =>
      if more.Item? {
        PutItemsSplit(more, rest);
      }
      PutSplit(value, after + PutItemsTail(more, rest));
      PutSplit(value, after + PutItemsTail(more, ""));
      assert PutItemsTail(more, rest) == PutItemsTail(more, "") + rest;
  }

  lemma {:induction false} PutMembersSplit(members: Members, rest: string)
    ensures PutMembers(members, rest) == PutMembers(members, "") + rest
    decreases members, 0
  {
    match members
    case NoMembers =>
    case Member(before, key, afterKey, beforeValue, value, after, more) =>
      if more.Member? {
        PutMembersSplit(more, rest);
      }
      var tail := PutMembersTail(more, "");
      assert PutMembersTail(more, rest) == tail + rest;
      PutColonValueSplit(beforeValue, value, after, tail, rest);
      var colonOn := PutColonValue(beforeValue, value, after, tail);
      Associate(afterKey, colonOn, rest);
      PutTextAppend(key, afterKey + colonOn, rest);
      Associate(before, PutText(key, afterKey + colonOn), rest);
  }

  lemma {:induction false} PutColonValueSplit(before: string, value: Value, after: string, tail: string, rest: string)
    ensures PutColonValue(before, value, after, tail + rest) == PutColonValue(before, value, after, tail) + rest
    decreases value, 1
  {
    PutSplit(value, after + (tail + rest));
    PutSplit(value, after + tail);
  }
}
