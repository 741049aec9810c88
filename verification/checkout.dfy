/** The checkout page's order confirmation: the order message assembled from
    the cart and the customer's fields, and the hand-off link to the chat
    service carrying that message as a percent-encoded `text` parameter. */
module Checkout {
  import opened Values
  import opened Catalog
  import Decimal
  import UriComponent

  /** The chat number the order goes to (a placeholder in the repository). */
  const WhatsAppNumber: string := "0"

  const GreetingText: string := "*Hola!* me comunico para realizarle un pedido *Take Away*"

  /** Seventeen U+2500 box-drawing characters. */
  const RuleText: string := "\U{2500}\U{2500}\U{2500}\U{2500}\U{2500}\U{2500}\U{2500}\U{2500}\U{2500}\U{2500}\U{2500}\U{2500}\U{2500}\U{2500}\U{2500}\U{2500}\U{2500}"

  /** A cart entry as the cart store hands it to the page. */
  datatype CartItem = CartItem(product: Product, quantity: int)

  /** The logical lines of the message, each rendered followed by a line break. */
  datatype Line =
    | GreetingLine
    | BlankLine
    | NameLine(nombre: string)
    | PhoneLine(telefono: string)
    | DetailHeader
    | RuleLine
    | ItemName(name: string)
    | ItemQuantity(quantity: int)
    | ItemPrice(cents: int)
    | TotalLine(cents: int)
    | NotesLine(aclaraciones: string)
  {
    predicate IsItemLine() {
      ItemName? || ItemQuantity? || ItemPrice?
    }
  }

  function Render(l: Line): string {
    match l
    case GreetingLine => GreetingText
    case BlankLine => ""
    case NameLine(n) => "*Nombre:* " + n
    case PhoneLine(t) => "*Tel\U{E9}fono:* " + t
    case DetailHeader => "*Detalle del pedido:*"
    case RuleLine => RuleText
    case ItemName(n) => "\U{2022} " + n
    case ItemQuantity(q) => "   *Cantidad:* " + Decimal.IntToString(q)
    case ItemPrice(c) => "   *Precio:* $" + Decimal.FormatCents(c)
    case TotalLine(c) => "*TOTAL A PAGAR (Sin envio):* $" + Decimal.FormatCents(c)
    case NotesLine(a) => "*Aclaraciones:* " + a
  }

  /** The message text: every line followed by a line break. */
  function Text(ls: seq<Line>): string {
    if ls == [] then "" else Render(ls[0]) + "\n" + Text(ls[1..])
  }

  /** The price a cart entry contributes: unit price times quantity. */
  function Subtotal(item: CartItem): int {
    item.product.priceCents * item.quantity
  }

  /** Three lines per cart entry, in cart order: name, quantity, subtotal. */
  function ItemLines(items: seq<CartItem>): (ls: seq<Line>)
    ensures |ls| == 3 * |items|
    ensures forall k :: 0 <= k < |items| ==>
              && ls[3 * k] == ItemName(items[k].product.name)
              && ls[3 * k + 1] == ItemQuantity(items[k].quantity)
              && ls[3 * k + 2] == ItemPrice(Subtotal(items[k]))
    ensures forall j :: 0 <= j < |ls| ==> ls[j].IsItemLine()
  {
    if items == [] then []
    else
      var head := [ItemName(items[0].product.name), ItemQuantity(items[0].quantity), ItemPrice(Subtotal(items[0]))];
      var tail := ItemLines(items[1..]);
      assert forall k :: 1 <= k < |items| ==> items[k] == items[1..][k - 1];
      assert forall j :: 3 <= j < |head + tail| ==> (head + tail)[j] == tail[j - 3];
      head + tail
  }

  /** The lines before the entries: greeting, the optional name and phone, the detail heading. */
  function HeaderLines(nombre: string, telefono: string): seq<Line> {
    [GreetingLine, BlankLine]
    + (if nombre != "" then [NameLine(nombre)] else [])
    + (if telefono != "" then [PhoneLine(telefono)] else [])
    + [BlankLine, DetailHeader, RuleLine]
  }

  /** The lines after the entries: the closing rule, the total, the optional notes. */
  function FooterLines(totalCents: int, aclaraciones: string): seq<Line> {
    [RuleLine, TotalLine(totalCents)]
    + (if aclaraciones != "" then [BlankLine, NotesLine(aclaraciones)] else [])
  }

  function MessageLines(items: seq<CartItem>, nombre: string, telefono: string,
                        aclaraciones: string, totalCents: int): seq<Line> {
    HeaderLines(nombre, telefono) + ItemLines(items) + FooterLines(totalCents, aclaraciones)
  }

  /** The order message, as the confirm handler assembles it: it opens with
      the greeting and a blank line, and every line, the last included, ends
      with a line break. */
  function Message(items: seq<CartItem>, nombre: string, telefono: string,
                   aclaraciones: string, totalCents: int): (m: string)
    ensures |GreetingText| + 2 <= |m| && m[..|GreetingText| + 2] == GreetingText + "\n\n"
    ensures m[|m| - 1] == '\n'
  {
    var ls := MessageLines(items, nombre, telefono, aclaraciones, totalCents);
    OpeningShape(items, nombre, telefono, aclaraciones, totalCents);
    TextEndsWithBreak(ls);
    TextOpening(ls);
    Text(ls)
  }

  /** A text whose first lines are the greeting and a blank line opens with them. */
  lemma TextOpening(ls: seq<Line>)
    requires |ls| >= 2 && ls[0] == GreetingLine && ls[1] == BlankLine
    ensures |GreetingText| + 2 <= |Text(ls)| && Text(ls)[..|GreetingText| + 2] == GreetingText + "\n\n"
  {
    assert ls[1..][1..] == ls[2..];
    var opening := GreetingText + "\n\n";
    assert Text(ls) == opening + Text(ls[2..]);
    PrefixOfAppend(opening, Text(ls[2..]));
  }

  lemma PrefixOfAppend(a: string, b: string)
    ensures (a + b)[..|a|] == a
  {
  }

  lemma OpeningShape(items: seq<CartItem>, nombre: string, telefono: string,
                     aclaraciones: string, totalCents: int)
    ensures var ls := MessageLines(items, nombre, telefono, aclaraciones, totalCents);
      |ls| >= 2 && ls[0] == GreetingLine && ls[1] == BlankLine
  {
    HeaderShape(nombre, telefono);
  }

  lemma {:induction false} TextEndsWithBreak(ls: seq<Line>)
    requires ls != []
    ensures |Text(ls)| >= 1 && Text(ls)[|Text(ls)| - 1] == '\n'
  {
    if ls[1..] != [] {
      TextEndsWithBreak(ls[1..]);
    }
  }

  /** How many lines precede the first entry. */
  function HeaderLength(nombre: string, telefono: string): nat {
    5 + (if nombre != "" then 1 else 0) + (if telefono != "" then 1 else 0)
  }

  lemma HeaderShape(nombre: string, telefono: string)
    ensures var head := HeaderLines(nombre, telefono);
      var h := HeaderLength(nombre, telefono);
      && |head| == h
      && head[0] == GreetingLine && head[1] == BlankLine && head[h - 1] == RuleLine
      && (nombre != "" ==> head[2] == NameLine(nombre))
      && (telefono != "" ==> head[h - 4] == PhoneLine(telefono))
      && (forall j :: 0 <= j < h ==> !head[j].IsItemLine() && !head[j].TotalLine? && !head[j].NotesLine?)
      && (forall j :: 0 <= j < h && head[j].NameLine? ==> nombre != "")
      && (forall j :: 0 <= j < h && head[j].PhoneLine? ==> telefono != "")
  {
  }

  lemma FooterShape(totalCents: int, aclaraciones: string)
    ensures var foot := FooterLines(totalCents, aclaraciones);
      && |foot| == 2 + (if aclaraciones != "" then 2 else 0)
      && foot[0] == RuleLine && foot[1] == TotalLine(totalCents)
      && (forall j :: 0 <= j < |foot| ==> !foot[j].IsItemLine() && !foot[j].NameLine? && !foot[j].PhoneLine?)
      && (forall j :: 0 <= j < |foot| && foot[j].TotalLine? ==> j == 1)
      && (forall j :: 0 <= j < |foot| && foot[j].NotesLine? ==> j == |foot| - 1 && aclaraciones != "")
      && (aclaraciones != "" ==> foot[|foot| - 1] == NotesLine(aclaraciones) && foot[|foot| - 2] == BlankLine)
  {
  }

  /** Positions in a message, read off its three parts. */
  lemma MessageIndex(items: seq<CartItem>, nombre: string, telefono: string,
                     aclaraciones: string, totalCents: int, j: int)
    requires 0 <= j < |MessageLines(items, nombre, telefono, aclaraciones, totalCents)|
    ensures var ls := MessageLines(items, nombre, telefono, aclaraciones, totalCents);
      var head := HeaderLines(nombre, telefono);
      var body := ItemLines(items);
      var foot := FooterLines(totalCents, aclaraciones);
      && |ls| == |head| + |body| + |foot|
      && (j < |head| ==> ls[j] == head[j])
      && (|head| <= j < |head| + |body| ==> ls[j] == body[j - |head|])
      && (|head| + |body| <= j ==> ls[j] == foot[j - |head| - |body|])
  {
  }

  /** The entries' lines form one block, in cart order, right after the
      heading and its rule, and nowhere else. */
  lemma MessageItemBlock(items: seq<CartItem>, nombre: string, telefono: string,
                         aclaraciones: string, totalCents: int)
    ensures var ls := MessageLines(items, nombre, telefono, aclaraciones, totalCents);
      var h := HeaderLength(nombre, telefono);
      && h + 3 * |items| <= |ls|
      && ls[0] == GreetingLine && ls[1] == BlankLine && ls[h - 1] == RuleLine
      && ls[h .. h + 3 * |items|] == ItemLines(items)
      && (forall j :: 0 <= j < |ls| && ls[j].IsItemLine() ==> h <= j < h + 3 * |items|)
  {
    var ls := MessageLines(items, nombre, telefono, aclaraciones, totalCents);
    var h := HeaderLength(nombre, telefono);
    HeaderShape(nombre, telefono);
    FooterShape(totalCents, aclaraciones);
    MessageIndex(items, nombre, telefono, aclaraciones, totalCents, 0);
    MessageIndex(items, nombre, telefono, aclaraciones, totalCents, 1);
    MessageIndex(items, nombre, telefono, aclaraciones, totalCents, h - 1);
    assert ls == HeaderLines(nombre, telefono) + ItemLines(items) + FooterLines(totalCents, aclaraciones);
    assert ls[h .. h + 3 * |items|] == ItemLines(items);
    forall j | 0 <= j < |ls| && ls[j].IsItemLine()
      ensures h <= j < h + 3 * |items|
    {
      MessageIndex(items, nombre, telefono, aclaraciones, totalCents, j);
    }
  }

  /** The closing rule and the total follow the entries; the total occurs
      exactly once, and the notes, if any, come after it as the last line. */
  lemma MessageTotal(items: seq<CartItem>, nombre: string, telefono: string,
                     aclaraciones: string, totalCents: int)
    ensures var ls := MessageLines(items, nombre, telefono, aclaraciones, totalCents);
      var t := HeaderLength(nombre, telefono) + 3 * |items| + 1;
      && |ls| == t + 1 + (if aclaraciones != "" then 2 else 0)
      && ls[t - 1] == RuleLine
      && ls[t] == TotalLine(totalCents)
      && (forall j :: 0 <= j < |ls| && ls[j].TotalLine? ==> j == t)
      && (forall j :: 0 <= j < |ls| && ls[j].NotesLine? ==> j == |ls| - 1 && j > t)
  {
    var ls := MessageLines(items, nombre, telefono, aclaraciones, totalCents);
    var t := HeaderLength(nombre, telefono) + 3 * |items| + 1;
    HeaderShape(nombre, telefono);
    FooterShape(totalCents, aclaraciones);
    MessageIndex(items, nombre, telefono, aclaraciones, totalCents, t - 1);
    MessageIndex(items, nombre, telefono, aclaraciones, totalCents, t);
    forall j | 0 <= j < |ls| && (ls[j].TotalLine? || ls[j].NotesLine?)
      ensures ls[j].TotalLine? ==> j == t
      ensures ls[j].NotesLine? ==> j == |ls| - 1 && j > t
    {
      MessageIndex(items, nombre, telefono, aclaraciones, totalCents, j);
    }
  }

  /** A name line, a phone line and a notes line each appear exactly when
      the corresponding field is non-empty, carrying that field. */
  lemma MessageOptionalLines(items: seq<CartItem>, nombre: string, telefono: string,
                             aclaraciones: string, totalCents: int)
    ensures var ls := MessageLines(items, nombre, telefono, aclaraciones, totalCents);
      var h := HeaderLength(nombre, telefono);
      && ((exists i :: 0 <= i < |ls| && ls[i].NameLine?) <==> nombre != "")
      && (nombre != "" ==> ls[2] == NameLine(nombre))
      && ((exists i :: 0 <= i < |ls| && ls[i].PhoneLine?) <==> telefono != "")
      && (telefono != "" ==> ls[h - 4] == PhoneLine(telefono))
      && ((exists i :: 0 <= i < |ls| && ls[i].NotesLine?) <==> aclaraciones != "")
      && (aclaraciones != "" ==> ls[|ls| - 1] == NotesLine(aclaraciones) && ls[|ls| - 2] == BlankLine)
  {
    var ls := MessageLines(items, nombre, telefono, aclaraciones, totalCents);
    var h := HeaderLength(nombre, telefono);
    HeaderShape(nombre, telefono);
    FooterShape(totalCents, aclaraciones);
    forall j | 0 <= j < |ls| && (ls[j].NameLine? || ls[j].PhoneLine? || ls[j].NotesLine?)
      ensures ls[j].NameLine? ==> nombre != ""
      ensures ls[j].PhoneLine? ==> telefono != ""
      ensures ls[j].NotesLine? ==> aclaraciones != ""
    {
      MessageIndex(items, nombre, telefono, aclaraciones, totalCents, j);
    }
    if nombre != "" {
      MessageIndex(items, nombre, telefono, aclaraciones, totalCents, 2);
    }
    if telefono != "" {
      MessageIndex(items, nombre, telefono, aclaraciones, totalCents, h - 4);
    }
    if aclaraciones != "" {
      MessageIndex(items, nombre, telefono, aclaraciones, totalCents, |ls| - 1);
      MessageIndex(items, nombre, telefono, aclaraciones, totalCents, |ls| - 2);
    }
  }

  lemma {:induction false} TextAppend(a: seq<Line>, b: seq<Line>)
    ensures Text(a + b) == Text(a) + Text(b)
  {
    if a == [] {
      assert a + b == b;
    } else {
      assert (a + b)[1..] == a[1..] + b;
      TextAppend(a[1..], b);
    }
  }

  /** The text itself opens with the greeting and a blank line, followed
      directly by the name line when a name was given. */
  lemma TextSingle(l: Line)
    ensures Text([l]) == Render(l) + "\n"
  {
    assert [l][1..] == [];
  }

  lemma MessageOpening(items: seq<CartItem>, nombre: string, telefono: string,
                       aclaraciones: string, totalCents: int)
    ensures var m := Message(items, nombre, telefono, aclaraciones, totalCents);
      var opening := GreetingText + "\n\n" + (if nombre != "" then "*Nombre:* " + nombre + "\n" else "");
      |opening| <= |m| && m[..|opening|] == opening
  {
    var ls := MessageLines(items, nombre, telefono, aclaraciones, totalCents);
    var first := OpeningLines(nombre);
    assert ls == first + ls[|first|..] by {
      HeaderShape(nombre, telefono);
      assert ls[..|first|] == first;
    }
    TextAppend(first, ls[|first|..]);
    OpeningLinesText(nombre);
    PrefixOfAppend(Text(first), Text(ls[|first|..]));
  }

  /** The greeting, the blank line and the optional name line. */
  function OpeningLines(nombre: string): seq<Line> {
    [GreetingLine, BlankLine] + (if nombre != "" then [NameLine(nombre)] else [])
  }

  lemma OpeningLinesText(nombre: string)
    ensures Text(OpeningLines(nombre))
            == GreetingText + "\n\n" + (if nombre != "" then "*Nombre:* " + nombre + "\n" else "")
  {
    var two := [GreetingLine, BlankLine];
    TextSingle(GreetingLine);
    TextSingle(BlankLine);
    assert two == [GreetingLine] + [BlankLine];
    TextAppend([GreetingLine], [BlankLine]);
    if nombre != "" {
      TextSingle(NameLine(nombre));
      TextAppend(two, [NameLine(nombre)]);
    } else {
      assert OpeningLines(nombre) == two;
    }
  }

  /** The hand-off link: the chat address, then the encoded message as `text`. */
  function HandoffPrefix(): string {
    "https://wa.me/" + WhatsAppNumber + "?text="
  }

  function HandoffUrl(message: string): (url: string)
    ensures url == HandoffPrefix() + UriComponent.Encode(message)
    ensures |HandoffPrefix()| <= |url| && url[..|HandoffPrefix()|] == HandoffPrefix()
    ensures UriComponent.WellFormed(url[|HandoffPrefix()|..])
    ensures UriComponent.Decode(url[|HandoffPrefix()|..]) == Some(message)
  {
    var payload := UriComponent.Encode(message);
    UriComponent.EncodeWellFormed(message);
    UriComponent.DecodeEncode(message);
    var url := HandoffPrefix() + payload;
    assert url[|HandoffPrefix()|..] == payload;
    url
  }

  /** What confirming the order does, in order. */
  datatype Effect =
    | StartSubmitting
    | OpenWindow(url: string, target: string)
    | ClearCart
    | NavigateTo(path: string)

  /** The effects of confirming a non-empty cart whose order message is
      `message`: submitting, the hand-off link in a new tab, clearing the
      cart, back to the menu. */
  function ConfirmEffects(message: string): (effects: seq<Effect>)
    ensures |effects| == 4
    ensures effects[0] == StartSubmitting
    ensures effects[1] == OpenWindow(HandoffPrefix() + UriComponent.Encode(message), "_blank")
    ensures effects[2] == ClearCart && effects[3] == NavigateTo("/")
    ensures forall i :: 0 <= i < |effects| && effects[i].OpenWindow? ==>
      var url := effects[i].url;
      && |HandoffPrefix()| <= |url| && url[..|HandoffPrefix()|] == HandoffPrefix()
      && UriComponent.Decode(url[|HandoffPrefix()|..]) == Some(message)
    ensures forall i, j :: (0 <= i < |effects| && 0 <= j < |effects|
              && effects[i].OpenWindow? && effects[j] == ClearCart) ==> i < j
  {
    var url := HandoffUrl(message);
    var effects := [StartSubmitting, OpenWindow(url, "_blank"), ClearCart, NavigateTo("/")];
    assert forall i :: 0 <= i < |effects| && effects[i].OpenWindow? ==> i == 1;
    assert forall j :: 0 <= j < |effects| && effects[j] == ClearCart ==> j == 2;
    effects
  }

  /** `handleConfirmarPedido`. With an empty cart it does nothing; otherwise
      it opens the hand-off link in a new tab (the link's payload decodes to
      the order message), then clears the cart and returns to the menu. */
  function ConfirmOrder(items: seq<CartItem>, nombre: string, telefono: string,
                        aclaraciones: string, totalCents: int): (effects: seq<Effect>)
    ensures |items| == 0 ==> effects == []
    ensures |items| > 0 ==>
      && |effects| == 4
      && effects[0] == StartSubmitting
      && effects[1] == OpenWindow(HandoffPrefix() + UriComponent.Encode(Message(items, nombre, telefono, aclaraciones, totalCents)), "_blank")
      && effects[2] == ClearCart
      && effects[3] == NavigateTo("/")
    ensures forall i :: 0 <= i < |effects| && effects[i].OpenWindow? ==>
      var url := effects[i].url;
      && |HandoffPrefix()| <= |url| && url[..|HandoffPrefix()|] == HandoffPrefix()
      && UriComponent.Decode(url[|HandoffPrefix()|..])
           == Some(Message(items, nombre, telefono, aclaraciones, totalCents))
    ensures forall i, j :: (0 <= i < |effects| && 0 <= j < |effects|
              && effects[i].OpenWindow? && effects[j] == ClearCart) ==> i < j
  {
    if |items| == 0 then [] else ConfirmEffects(Message(items, nombre, telefono, aclaraciones, totalCents))
  }
}
