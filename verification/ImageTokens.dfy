/**
 * What images cost in a request (relay/channel/openai/token.go). Side lengths are scaled in exact
 * arithmetic and cut to whole pixels.
 */
module ImageTokens {
  import opened Basics

  const MAX_SIDE := 2048
  const MAX_SHORT_SIDE := 768
  const TILE := 512

  datatype Size = Size(width: nat, height: nat)

  /** The plain models and gpt-4o-mini are priced differently. */
  datatype Pricing = Pricing(low: nat, perTile: nat, extra: nat)

  const PLAIN := Pricing(85, 170, 85)
  const MINI := Pricing(2833, 5667, 2833)

  predicate Fits(s: Size) {
    s.width <= MAX_SIDE && s.height <= MAX_SIDE && (s.width <= MAX_SHORT_SIDE || s.height <= MAX_SHORT_SIDE)
  }

  function Ceil512(n: nat): nat {
    (n + 511) / TILE
  }

  function Tiles(s: Size): nat {
    Ceil512(s.width) * Ceil512(s.height)
  }

  /** The least number of tiles that reach across. */
  lemma TilesAcross(n: nat, k: nat)
    ensures Ceil512(n) <= k <==> n <= 512 * k
  {}

  /** r has the shape of s, short of less than one pixel on each side, and is no larger. */
  ghost predicate Shrinks(r: Size, s: Size, target: nat, base: nat)
    requires base > 0
  {
    && r.width * base <= s.width * target < (r.width + 1) * base
    && r.height * base <= s.height * target < (r.height + 1) * base
  }

  lemma SideShrinks(r: nat, s: nat, target: nat, base: nat)
    requires target < base && r * base <= s * target < (r + 1) * base
    ensures r <= s
    ensures s <= base ==> r <= target
    ensures s >= base ==> r >= target
  {
    if r > s {
      ProductAbove(r, s, target, base);
    }
    if s <= base && r > target {
      ProductAbove(r, target, s, base);
    }
    if s >= base && r < target {
      MulMono(r + 1, target, base);
      MulMono(base, s, target);
    }
  }

  lemma ProductAbove(r: nat, a: nat, b: nat, base: nat)
    requires r > a && b <= base && base > 0
    ensures r * base > a * b
  {
    MulMono(a + 1, r, base);
    MulMono(b, base, a);
    assert (a + 1) * base == a * base + base;
  }

  lemma MulMono(a: nat, b: nat, c: nat)
    requires a <= b
    ensures a * c <= b * c && c * a <= c * b
  {}

  /** int(float64(side) * (target / base)) */
  function Cut(side: nat, target: nat, base: nat): nat
    requires base > 0
  {
    side * target / base
  }

  function ScaledBy(s: Size, target: nat, base: nat): Size
    requires base > 0
  {
    Size(Cut(s.width, target, base), Cut(s.height, target, base))
  }

  /** The long side first, then the short one. */
  function Rescaled(size: Size): Size {
    var s := if Max(size.width, size.height) > MAX_SIDE then ScaledBy(size, MAX_SIDE, Max(size.width, size.height)) else size;
    if Min(s.width, s.height) > MAX_SHORT_SIDE then ScaledBy(s, MAX_SHORT_SIDE, Min(s.width, s.height)) else s
  }

  lemma ScaledShrinks(s: Size, target: nat, base: nat)
    requires target < base
    ensures Shrinks(ScaledBy(s, target, base), s, target, base)
  {}

  /** The result fits, never grows, leaves alone exactly the sizes that fit, and uses one of the
      two bounds to the full when it shrinks. */
  lemma RescaledFits(size: Size)
    ensures var r := Rescaled(size);
            && Fits(r) && r.width <= size.width && r.height <= size.height
            && (r == size <==> Fits(size))
            && (!Fits(size) ==> r.width == MAX_SIDE || r.height == MAX_SIDE || r.width == MAX_SHORT_SIDE || r.height == MAX_SHORT_SIDE)
  {
    var s, base := size, Max(size.width, size.height);
    if base > MAX_SIDE {
      s := ScaledBy(size, MAX_SIDE, base);
      ScaledShrinks(size, MAX_SIDE, base);
      SideShrinks(s.width, size.width, MAX_SIDE, base);
      SideShrinks(s.height, size.height, MAX_SIDE, base);
    }
    var short := Min(s.width, s.height);
    if short > MAX_SHORT_SIDE {
      var r := ScaledBy(s, MAX_SHORT_SIDE, short);
      ScaledShrinks(s, MAX_SHORT_SIDE, short);
      SideShrinks(r.width, s.width, MAX_SHORT_SIDE, short);
      SideShrinks(r.height, s.height, MAX_SHORT_SIDE, short);
    }
  }

  /** The shape is kept to within a pixel: first down to 2048 on the longer side, then down to 768
      on the shorter one, each only where it exceeds that. */
  lemma RescaledShape(size: Size) returns (s: Size)
    ensures var longer := Max(size.width, size.height);
            if longer > 2048 then Shrinks(s, size, 2048, longer) else s == size
    ensures var r, shorter := Rescaled(size), Min(s.width, s.height);
            if shorter > 768 then Shrinks(r, s, 768, shorter) else r == s
  {
    s := size;
    var longer := Max(size.width, size.height);
    if longer > MAX_SIDE {
      s := ScaledBy(size, MAX_SIDE, longer);
      ScaledShrinks(size, MAX_SIDE, longer);
    }
    var shorter := Min(s.width, s.height);
    if shorter > MAX_SHORT_SIDE {
      ScaledShrinks(s, MAX_SHORT_SIDE, shorter);
    }
  }

  lemma RescaledTwice(size: Size)
    ensures Rescaled(Rescaled(size)) == Rescaled(size)
  {
    RescaledFits(size);
    RescaledFits(Rescaled(size));
  }

  /** At most eight tiles, and eight for the largest size. */
  lemma AtMostEightTiles(s: Size)
    requires Fits(s)
    ensures Tiles(s) <= 8
    ensures Tiles(Size(MAX_SIDE, MAX_SHORT_SIDE)) == 8
  {
    var a, b := Ceil512(s.width), Ceil512(s.height);
    assert (a <= 2 && b <= 4) || (a <= 4 && b <= 2);
    if a <= 2 {
      MulMono(a, 2, b);
    } else {
      MulMono(b, 2, a);
    }
  }

  /** What one high-detail image may cost at most. */
  function Ceiling(p: Pricing): nat {
    8 * p.perTile + p.extra
  }

  /** None: the size cannot be read, or the detail option is invalid. */
  function ImageCost(size: Option<Size>, detail: string, p: Pricing): Option<nat> {
    if detail == "low" then Some(p.low)
    else if detail in {"", "auto", "high"} && size.Some? then Some(Tiles(Rescaled(size.value)) * p.perTile + p.extra)
    else None
  }

  lemma ImageCostBounded(size: Option<Size>, detail: string, p: Pricing)
    requires p.low <= Ceiling(p) && ImageCost(size, detail, p).Some?
    ensures ImageCost(size, detail, p).value <= Ceiling(p)
  {
    if detail != "low" {
      var r := Rescaled(size.value);
      RescaledFits(size.value);
      AtMostEightTiles(r);
      MulMono(Tiles(r), 8, p.perTile);
    }
  }

  method Rescale(w: nat, h: nat) returns (width: nat, height: nat)
    ensures Size(width, height) == Rescaled(Size(w, h))
  {
    width, height := w, h;
    if width > 2048 || height > 2048 {
      var base := Max(width, height);
      width, height := Cut(width, 2048, base), Cut(height, 2048, base);
    }
    if width > 768 && height > 768 {
      var base := Min(width, height);
      width, height := Cut(width, 768, base), Cut(height, 768, base);
    }
  }

  method CountImageTokens(size: Option<Size>, detail: string, p: Pricing) returns (cost: Option<nat>)
    ensures cost == ImageCost(size, detail, p)
  {
    var d := detail;
    if d == "" || d == "auto" {
      d := "high";
    }
    if d == "low" {
      return Some(p.low);
    } else if d == "high" {
      if size.None? {
        return None;
      }
      var width, height := Rescale(size.value.width, size.value.height);
      return Some(Tiles(Size(width, height)) * p.perTile + p.extra);
    }
    return None;
  }

  function ClaudeCost(size: Size): nat {
    if size.width <= 200 && size.height <= 200 then 54
    else if size.width <= 1000 && size.height <= 1000 then 1334
    else if size.width <= 1092 && size.height <= 1092 then 1590
    else Tiles(size) * PLAIN.perTile + PLAIN.extra
  }

  /** The prices: low detail by model, and a high-detail image tile by tile. */
  lemma Prices(size: Option<Size>, s: Size)
    ensures ImageCost(size, "low", PLAIN) == Some(85) && ImageCost(size, "low", MINI) == Some(2833)
    ensures ImageCost(Some(s), "high", PLAIN) == Some(170 * Tiles(Rescaled(s)) + 85)
    ensures ImageCost(Some(s), "high", MINI) == Some(5667 * Tiles(Rescaled(s)) + 2833)
    ensures ImageCost(None, "high", PLAIN) == None
    ensures ImageCost(size, "", PLAIN) == ImageCost(size, "auto", PLAIN) == ImageCost(size, "high", PLAIN)
  {}

  lemma OtherDetail(size: Option<Size>, detail: string, p: Pricing)
    requires detail != "" && detail != "auto" && detail != "high" && detail != "low"
    ensures ImageCost(size, detail, p) == None
  {}

  /** The flat prices of an image in the other format, and the price per tile beyond them. */
  lemma ClaudePrices(s: Size)
    ensures var longest := Max(s.width, s.height);
            && (longest <= 200 ==> ClaudeCost(s) == 54)
            && (200 < longest <= 1000 ==> ClaudeCost(s) == 1334)
            && (1000 < longest <= 1092 ==> ClaudeCost(s) == 1590)
            && (longest > 1092 ==> ClaudeCost(s) == 170 * Tiles(s) + 85)
  {}

  // ---------------------------------------------------------------- messages

  datatype Part = TextPart(text: string) | ImagePart(size: Option<Size>, detail: string) | ClaudePart(size: Option<Size>) | Skipped

  datatype Content = Nil | Plain(text: string) | Parts(parts: seq<Part>) | Unknown

  datatype Message = Message(role: string, name: Option<string>, content: Content)

  /** What a text and an image cost. */
  datatype Counter = Counter(text: string -> nat, image: (Option<Size>, string) -> Option<nat>, claude: Size -> nat)

  function PartCost(k: Counter, part: Part): nat {
    match part
    case TextPart(text) => k.text(text)
    case ImagePart(size, detail) => if k.image(size, detail).Some? then k.image(size, detail).value else 0
    case ClaudePart(size) => if size.Some? then k.claude(size.value) else 0
    case Skipped => 0
  }

  function PartsCost(k: Counter, parts: seq<Part>): nat {
    if parts == [] then 0 else PartsCost(k, parts[..|parts| - 1]) + PartCost(k, parts[|parts| - 1])
  }

  /** A message without content is counted without its role and name. */
  function MessageCost(k: Counter, m: Message): nat {
    if m.content.Nil? then 3
    else
      3 + (match m.content
           case Plain(text) => k.text(text)
           case Parts(parts) => PartsCost(k, parts)
           case _ => 0)
      + k.text(m.role) + if m.name.Some? then 1 + k.text(m.name.value) else 0
  }

  function MessagesCost(k: Counter, ms: seq<Message>): nat {
    if ms == [] then 0 else MessagesCost(k, ms[..|ms| - 1]) + MessageCost(k, ms[|ms| - 1])
  }

  /** What the pieces of a message add: three tokens for itself, its text and its role; one token
      and its text for a name; nothing but the three without content. */
  lemma MessagePieces(k: Counter, role: string, name: string, text: string, parts: seq<Part>, part: Part)
    ensures MessageCost(k, Message(role, None, Plain(text))) == 3 + k.text(text) + k.text(role)
    ensures forall content: Content :: !content.Nil? ==>
              MessageCost(k, Message(role, Some(name), content)) == MessageCost(k, Message(role, None, content)) + 1 + k.text(name)
    ensures MessageCost(k, Message(role, Some(name), Nil)) == MessageCost(k, Message(role, None, Nil)) == 3
    ensures MessageCost(k, Message(role, None, Parts([]))) == MessageCost(k, Message(role, None, Unknown)) == 3 + k.text(role)
    ensures MessageCost(k, Message(role, None, Parts(parts + [part])))
            == MessageCost(k, Message(role, None, Parts(parts))) + PartCost(k, part)
  {
    PartsCostMore(k, parts, part);
  }

  lemma PartPieces(k: Counter, text: string, size: Size, detail: string)
    ensures PartCost(k, TextPart(text)) == k.text(text) && PartCost(k, Skipped) == 0
    ensures PartCost(k, ClaudePart(Some(size))) == k.claude(size) && PartCost(k, ClaudePart(None)) == 0
    ensures k.image(Some(size), detail).Some? ==> Some(PartCost(k, ImagePart(Some(size), detail))) == k.image(Some(size), detail)
    ensures k.image(Some(size), detail).None? ==> PartCost(k, ImagePart(Some(size), detail)) == 0
  {}

  method CountParts(k: Counter, parts: seq<Part>) returns (tokenNum: nat)
    ensures tokenNum == PartsCost(k, parts)
  {
    tokenNum := 0;
    for i := 0 to |parts|
      invariant tokenNum == PartsCost(k, parts[..i])
    {
      assert parts[..i + 1][..i] == parts[..i];
      match parts[i] {
        case TextPart(text) => tokenNum := tokenNum + k.text(text);
        case ImagePart(size, detail) =>
          var cost := k.image(size, detail);
          if cost.Some? {
            tokenNum := tokenNum + cost.value;
          }
        case ClaudePart(size) =>
          if size.Some? {
            tokenNum := tokenNum + k.claude(size.value);
          }
        case Skipped =>
      }
    }
    assert parts[..|parts|] == parts;
  }

  method CountTokenMessages(k: Counter, messages: seq<Message>) returns (tokenNum: nat)
    ensures tokenNum == MessagesCost(k, messages) + 3
  {
    tokenNum := 0;
    for i := 0 to |messages|
      invariant tokenNum == MessagesCost(k, messages[..i])
    {
      assert messages[..i + 1][..i] == messages[..i];
      var message := messages[i];
      tokenNum := tokenNum + 3;
      if message.content.Nil? {
        continue;
      }
      match message.content {
        case Plain(text) => tokenNum := tokenNum + k.text(text);
        case Parts(parts) =>
          var n := CountParts(k, parts);
          tokenNum := tokenNum + n;
        case _ =>
      }
      tokenNum := tokenNum + k.text(message.role);
      if message.name.Some? {
        tokenNum := tokenNum + 1;
        tokenNum := tokenNum + k.text(message.name.value);
      }
    }
    assert messages[..|messages|] == messages;
    tokenNum := tokenNum + 3;
  }

  // ---------------------------------------------------------------- the price of images

  function PartsWithoutImages(parts: seq<Part>): seq<Part> {
    if parts == [] then []
    else PartsWithoutImages(parts[..|parts| - 1]) + if parts[|parts| - 1].ImagePart? then [] else [parts[|parts| - 1]]
  }

  function ImagesInParts(parts: seq<Part>): nat {
    if parts == [] then 0 else ImagesInParts(parts[..|parts| - 1]) + if parts[|parts| - 1].ImagePart? then 1 else 0
  }

  function WithoutImages(m: Message): Message {
    if m.content.Parts? then m.(content := Parts(PartsWithoutImages(m.content.parts))) else m
  }

  function AllWithoutImages(ms: seq<Message>): seq<Message> {
    if ms == [] then [] else AllWithoutImages(ms[..|ms| - 1]) + [WithoutImages(ms[|ms| - 1])]
  }

  function Images(ms: seq<Message>): nat {
    if ms == [] then 0
    else Images(ms[..|ms| - 1]) + if ms[|ms| - 1].content.Parts? then ImagesInParts(ms[|ms| - 1].content.parts) else 0
  }

  /** n times c. */
  function Times(n: nat, c: nat): nat {
    if n == 0 then 0 else Times(n - 1, c) + c
  }

  lemma {:induction false} TimesMore(m: nat, n: nat, c: nat)
    ensures Times(m + n, c) == Times(m, c) + Times(n, c)
  {
    if n > 0 { TimesMore(m, n - 1, c); }
  }

  lemma {:induction false} TimesIsProduct(n: nat, c: nat)
    ensures Times(n, c) == n * c
  {
    if n > 0 {
      TimesIsProduct(n - 1, c);
      assert n * c == (n - 1) * c + c;
    }
  }

  /** No image costs more than c. */
  ghost predicate ImagesWithin(k: Counter, c: nat) {
    forall size, detail :: k.image(size, detail).Some? ==> k.image(size, detail).value <= c
  }

  lemma PartsCostMore(k: Counter, parts: seq<Part>, part: Part)
    ensures PartsCost(k, parts + [part]) == PartsCost(k, parts) + PartCost(k, part)
  {
    assert (parts + [part])[..|parts|] == parts;
  }

  lemma {:induction false} PartsPrice(k: Counter, parts: seq<Part>, c: nat)
    requires ImagesWithin(k, c)
    ensures PartsCost(k, PartsWithoutImages(parts)) <= PartsCost(k, parts)
            <= PartsCost(k, PartsWithoutImages(parts)) + Times(ImagesInParts(parts), c)
  {
    if parts != [] {
      var init, last := parts[..|parts| - 1], parts[|parts| - 1];
      PartsPrice(k, init, c);
      if last.ImagePart? {
        assert PartCost(k, last) <= c;
        assert PartsWithoutImages(parts) == PartsWithoutImages(init);
      } else {
        PartsCostMore(k, PartsWithoutImages(init), last);
      }
    }
  }

  lemma MessagePrice(k: Counter, m: Message, c: nat)
    requires ImagesWithin(k, c) && m.content.Parts?
    ensures MessageCost(k, WithoutImages(m)) <= MessageCost(k, m)
            <= MessageCost(k, WithoutImages(m)) + Times(ImagesInParts(m.content.parts), c)
  {
    PartsPrice(k, m.content.parts, c);
  }

  lemma MessagesCostMore(k: Counter, ms: seq<Message>, m: Message)
    ensures MessagesCost(k, ms + [m]) == MessagesCost(k, ms) + MessageCost(k, m)
  {
    assert (ms + [m])[..|ms|] == ms;
  }

  lemma {:induction false} MessagesPrice(k: Counter, ms: seq<Message>, c: nat)
    requires ImagesWithin(k, c)
    ensures MessagesCost(k, AllWithoutImages(ms)) <= MessagesCost(k, ms)
            <= MessagesCost(k, AllWithoutImages(ms)) + Times(Images(ms), c)
  {
    if ms != [] {
      var init, last := ms[..|ms| - 1], ms[|ms| - 1];
      MessagesPrice(k, init, c);
      MessagesCostMore(k, AllWithoutImages(init), WithoutImages(last));
      if last.content.Parts? {
        MessagePrice(k, last, c);
        TimesMore(Images(init), ImagesInParts(last.content.parts), c);
      }
    }
  }

  function CounterFor(text: string -> nat, p: Pricing): Counter {
    Counter(text, (size, detail) => ImageCost(size, detail, p), ClaudeCost)
  }

  lemma CounterWithin(text: string -> nat, p: Pricing)
    requires p.low <= Ceiling(p)
    ensures ImagesWithin(CounterFor(text, p), Ceiling(p))
  {
    forall size, detail | ImageCost(size, detail, p).Some? ensures ImageCost(size, detail, p).value <= Ceiling(p) {
      ImageCostBounded(size, detail, p);
    }
  }

  /** n images, whatever their sizes, add at most n times the ceiling of one to a request. */
  lemma ImagesAddAtMost(text: string -> nat, p: Pricing, ms: seq<Message>)
    requires p.low <= Ceiling(p)
    ensures var k := CounterFor(text, p);
            MessagesCost(k, AllWithoutImages(ms)) <= MessagesCost(k, ms)
            <= MessagesCost(k, AllWithoutImages(ms)) + Images(ms) * Ceiling(p)
    ensures Ceiling(PLAIN) == 1445 && Ceiling(MINI) == 48169
  {
    CounterWithin(text, p);
    MessagesPrice(CounterFor(text, p), ms, Ceiling(p));
    TimesIsProduct(Images(ms), Ceiling(p));
  }
}
