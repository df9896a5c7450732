/**
 * The types shared by the chat client and the room server (src/shared.ts):
 * a chat message, the three protocol events, and the fixed list of
 * candidate user names `user000` .. `user025`.
 */
module Shared {

  datatype Option<T> = None | Some(value: T)

  /** The author kind; the protocol admits exactly these two literals. */
  datatype Role = User | Assistant

  /** The wire literal of a role. */
  function RoleLiteral(role: Role): (s: string)
    ensures s == "user" || s == "assistant"
    ensures s == "user" <==> role == User
  {
    match role
    case User => "user"
    case Assistant => "assistant"
  }

  /** One message of a room's log. Timestamps are integral milliseconds. */
  datatype ChatMessage = ChatMessage(
    id: string,
    content: string,
    user: string,
    role: Role,
    timestamp: int)

  /**
   * A protocol event. `Add` and `Update` carry the five fields of a
   * ChatMessage; `All` is a full ordered snapshot of the room.
   */
  datatype Message =
    | Add(id: string, content: string, user: string, role: Role, timestamp: int)
    | Update(id: string, content: string, user: string, role: Role, timestamp: int)
    | All(messages: seq<ChatMessage>)

  /** The ChatMessage an `Add` or `Update` event describes. */
  function EntryOf(msg: Message): (m: ChatMessage)
    requires !msg.All?
    ensures m.id == msg.id && m.content == msg.content && m.user == msg.user
    ensures m.role == msg.role && m.timestamp == msg.timestamp
  {
    ChatMessage(msg.id, msg.content, msg.user, msg.role, msg.timestamp)
  }

  /** The `add` event that announces a message: `{type: "add", ...m}`. */
  function AddOf(m: ChatMessage): (msg: Message)
    ensures msg.Add? && EntryOf(msg) == m
  {
    Add(m.id, m.content, m.user, m.role, m.timestamp)
  }

  /** The `update` event that carries a message's new fields. */
  function UpdateOf(m: ChatMessage): (msg: Message)
    ensures msg.Update? && EntryOf(msg) == m
  {
    Update(m.id, m.content, m.user, m.role, m.timestamp)
  }

  // ---------------------------------------------------------------------
  // Decimal formatting: Number.prototype.toString and String.prototype.padStart

  function DigitChar(d: nat): (c: char)
    requires d < 10
  {
    (48 + d) as char
  }

  predicate IsDigit(c: char) {
    48 <= c as int <= 57
  }

  /** The decimal representation of a non-negative integer, without leading zeros. */
  function ToDecimal(n: nat): (s: string)
    ensures 1 <= |s|
    ensures forall k :: 0 <= k < |s| ==> IsDigit(s[k])
    decreases n
  {
    if n < 10 then [DigitChar(n)] else ToDecimal(n / 10) + [DigitChar(n % 10)]
  }

  /** `n` copies of `c`. */
  function Repeat(c: char, n: nat): (r: string)
    ensures |r| == n
    ensures forall k :: 0 <= k < n ==> r[k] == c
  {
    if n == 0 then [] else [c] + Repeat(c, n - 1)
  }

  /** `s.padStart(width, pad)`: prepend `pad` until `s` is `width` long. */
  function PadStart(s: string, width: nat, pad: char): (r: string)
    ensures |r| == if |s| < width then width else |s|
    ensures r[|r| - |s|..] == s
    ensures forall k :: 0 <= k < |r| - |s| ==> r[k] == pad
  {
    if |s| < width then Repeat(pad, width - |s|) + s else s
  }

  /** The value of a string of decimal digits (leading zeros allowed). */
  function DecimalValue(s: string): nat
    requires forall k :: 0 <= k < |s| ==> IsDigit(s[k])
  {
    if s == [] then 0
    else
      var last := s[|s| - 1];
      assert IsDigit(last);
      10 * DecimalValue(s[..|s| - 1]) + (last as int - 48)
  }

  /** Reference definition: the three-digit, zero-padded form of `n`. */
  function ThreeDigits(n: nat): string
    requires n < 1000
  {
    [DigitChar(n / 100), DigitChar(n / 10 % 10), DigitChar(n % 10)]
  }

  // ---------------------------------------------------------------------
  // The candidate user names

  const NameCount: nat := 26

  /** `user${i.toString().padStart(3, "0")}` for i in 0 .. 25. */
  function Names(): (r: seq<string>)
    ensures |r| == NameCount
  {
    seq(NameCount, i requires 0 <= i < NameCount => "user" + PadStart(ToDecimal(i), 3, '0'))
  }

  /** Padding the decimal form of any n < 1000 to three places gives its three digits. */
  lemma PaddedDecimalIsThreeDigits(n: nat)
    requires n < 1000
    ensures PadStart(ToDecimal(n), 3, '0') == ThreeDigits(n)
  {
    if n < 10 {
      PadOneDigit(n);
    } else if n < 100 {
      PadTwoDigits(n);
    } else {
      PadThreeDigits(n);
    }
  }

  lemma PadOneDigit(n: nat)
    requires n < 10
    ensures PadStart(ToDecimal(n), 3, '0') == ThreeDigits(n)
  {
    var d := ToDecimal(n);
    assert d == [DigitChar(n)];
    assert Repeat('0', 2) == ['0', '0'];
    assert DigitChar(n / 100) == '0' && DigitChar(n / 10 % 10) == '0';
  }

  lemma PadTwoDigits(n: nat)
    requires 10 <= n < 100
    ensures PadStart(ToDecimal(n), 3, '0') == ThreeDigits(n)
  {
    var d := ToDecimal(n);
    TwoDigits(n);
    assert Repeat('0', 1) == ['0'];
    assert n / 10 % 10 == n / 10 && DigitChar(n / 100) == '0';
  }

  lemma PadThreeDigits(n: nat)
    requires 100 <= n < 1000
    ensures PadStart(ToDecimal(n), 3, '0') == ThreeDigits(n)
  {
    var d := ToDecimal(n);
    TwoDigits(n / 10);
    assert n / 10 / 10 == n / 100;
    assert d == ToDecimal(n / 10) + [DigitChar(n % 10)];
    assert PadStart(d, 3, '0') == d;
  }

  lemma TwoDigits(n: nat)
    requires 10 <= n < 100
    ensures ToDecimal(n) == [DigitChar(n / 10), DigitChar(n % 10)]
  {
    assert ToDecimal(n / 10) == [DigitChar(n / 10)];
  }

  /** Reading back the three digits of n gives n. */
  lemma ThreeDigitsValue(n: nat)
    requires n < 1000
    ensures forall k :: 0 <= k < 3 ==> IsDigit(ThreeDigits(n)[k])
    ensures DecimalValue(ThreeDigits(n)) == n
  {
    var a, b, c := n / 100, n / 10 % 10, n % 10;
    var s := ThreeDigits(n);
    assert s == [DigitChar(a), DigitChar(b), DigitChar(c)];
    DecimalValueSnoc([], DigitChar(a));
    assert [] + [DigitChar(a)] == [DigitChar(a)];
    DecimalValueSnoc([DigitChar(a)], DigitChar(b));
    assert [DigitChar(a)] + [DigitChar(b)] == [DigitChar(a), DigitChar(b)];
    DecimalValueSnoc([DigitChar(a), DigitChar(b)], DigitChar(c));
    assert [DigitChar(a), DigitChar(b)] + [DigitChar(c)] == s;
    assert n == 100 * a + 10 * b + c;
  }

  lemma DecimalValueSnoc(s: string, c: char)
    requires forall k :: 0 <= k < |s| ==> IsDigit(s[k])
    requires IsDigit(c)
    ensures forall k :: 0 <= k < |s + [c]| ==> IsDigit((s + [c])[k])
    ensures DecimalValue(s + [c]) == 10 * DecimalValue(s) + (c as int - 48)
  {
    assert (s + [c])[..|s|] == s;
  }

  /** names[i] is "user" followed by i written with exactly three digits. */
  lemma NameShape(i: nat)
    requires i < NameCount
    ensures Names()[i] == "user" + ThreeDigits(i)
    ensures |Names()[i]| == 7 && Names()[i][..4] == "user"
    ensures DecimalValue(Names()[i][4..]) == i
  {
    PaddedDecimalIsThreeDigits(i);
    ThreeDigitsValue(i);
    assert Names()[i][4..] == ThreeDigits(i);
  }

  /** The first and last names of the list. */
  lemma NamesEndpoints()
    ensures Names()[0] == "user000"
    ensures Names()[NameCount - 1] == "user025"
  {
    NameShape(0);
    NameShape(25);
  }

  /** No two names coincide. */
  lemma NamesDistinct()
    ensures forall i, j :: 0 <= i < j < NameCount ==> Names()[i] != Names()[j]
  {
    forall i, j | 0 <= i < j < NameCount
      ensures Names()[i] != Names()[j]
    {
      NameShape(i);
      NameShape(j);
    }
  }
}
