/**
  How a TrackItem looks: its clamped scale, the "clear" image made by chroma
  keying the member's colour out of the "dark" image, the image-key switch,
  and the per-chunk choice between the "clear", "light" and "dark" images
  made by updateCanvasForCurrentPosition. Images are their RGBA pixel
  sequences; PhotoImage conversion, the timer redraw and canvas updates are
  rendering and are not modelled.
 */
module Appearance {
  import opened Common
  import opened Timeline

  // ---------------------------------------------------------------------------
  // Scale
  // ---------------------------------------------------------------------------

  const MaxScale: int := 1000

  /** The constructor's and setScale's `max(0, min(scale, 1000))`. */
  function ClampScale(scale: int): (s: int)
    ensures 0 <= s <= MaxScale
    ensures 0 <= scale <= MaxScale ==> s == scale
    ensures scale < 0 ==> s == 0
    ensures scale > MaxScale ==> s == MaxScale
  {
    if scale > MaxScale then MaxScale else if scale < 0 then 0 else scale
  }

  /** Clamping is monotone: a larger requested scale never yields a smaller one. */
  lemma {:induction false} ClampScaleMonotone(a: int, b: int)
    requires a <= b
    ensures ClampScale(a) <= ClampScale(b)
  {
  }

  // ---------------------------------------------------------------------------
  // Hex colour keys
  // ---------------------------------------------------------------------------

  /** The one member colour that is keyed out as a different colour. */
  const SubstitutedColor: string := "#aa9f00"
  const SubstituteKey: string := "ffff00"

  datatype Rgb = Rgb(r: int, g: int, b: int)

  /** Value of a hexadecimal digit of either case. */
  function HexDigit(c: char): (d: Option<nat>)
    ensures d.Some? ==> d.value < 16
  {
    if '0' <= c <= '9' then Some(c as int - '0' as int)
    else if 'a' <= c <= 'f' then Some(c as int - 'a' as int + 10)
    else if 'A' <= c <= 'F' then Some(c as int - 'A' as int + 10)
    else None
  }

  /** Characters below 0x100 that Python's `str.isspace` accepts. */
  predicate IsSpace(c: char) {
    var n := c as int;
    n == 0x20 || 0x09 <= n <= 0x0d || 0x1c <= n <= 0x1f || n == 0x85 || n == 0xa0
  }

  /** `s` without its leading and trailing white space, as `int()` sees it. */
  function Strip(s: string): (t: string)
    ensures |t| <= |s|
    ensures t != [] ==> !IsSpace(t[0]) && !IsSpace(t[|t| - 1])
    ensures (forall i :: 0 <= i < |s| ==> !IsSpace(s[i])) ==> t == s
    decreases |s|
  {
    if s == [] then s
    else if IsSpace(s[0]) then Strip(s[1..])
    else if IsSpace(s[|s| - 1]) then Strip(s[..|s| - 1])
    else s
  }

  /** The value of a non-empty run of hex digits, most significant first. */
  function DigitsValue(s: string): (v: Option<nat>)
    ensures v.Some? <==> s != [] && forall i :: 0 <= i < |s| ==> HexDigit(s[i]).Some?
    decreases |s|
  {
    if s == [] then None
    else
      match HexDigit(s[|s| - 1])
      case None => None
      case Some(d) =>
        if |s| == 1 then Some(d)
        else
          match DigitsValue(s[..|s| - 1])
          case None => None
          case Some(high) =>
            assert forall i :: 0 <= i < |s| - 1 ==> s[i] == s[..|s| - 1][i];
            Some(high * 16 + d)
  }

  /**
    `int(s, 16)` on the slices chromaKeyImage passes: surrounding white
    space, an optional sign, then hex digits; anything else raises
    ValueError.
   */
  function ParseHex(s: string): (r: Result<int>)
    ensures r.Err? ==> r.error == ValueError
  {
    var t := Strip(s);
    if t == [] then Err(ValueError)
    else if t[0] == '+' || t[0] == '-' then
      match DigitsValue(t[1..])
      case None => Err(ValueError)
      case Some(v) => Ok(if t[0] == '-' then -(v as int) else v)
    else
      match DigitsValue(t)
      case None => Err(ValueError)
      case Some(v) => Ok(v)
  }

  /** `s.lstrip(c)`: `s` without its leading run of `c`. */
  function LStrip(s: string, c: char): (t: string)
    ensures |t| <= |s| && t == s[|s| - |t|..]
    ensures t != [] ==> t[0] != c
    ensures forall i :: 0 <= i < |s| - |t| ==> s[i] == c
    decreases |s|
  {
    if s != [] && s[0] == c then LStrip(s[1..], c) else s
  }

  /** Python's `s[i:j]` for `0 <= i <= j`: bounds past the end are clipped. */
  function Slice(s: string, i: nat, j: nat): (t: string)
    requires i <= j
    ensures |t| == (if j <= |s| then j - i else if i <= |s| then |s| - i else 0)
  {
    if i >= |s| then [] else if j >= |s| then s[i..] else s[i..j]
  }

  /**
    The key colour of chromaKeyImage: `#aa9f00` is swapped for `ffff00`,
    the leading `#`s are stripped and the pairs at offsets 0, 2 and 4 are
    parsed in that order.
   */
  function ParseKey(color: string): (r: Result<Rgb>)
    ensures r.Err? ==> r.error == ValueError
  {
    var key := if color == SubstitutedColor then SubstituteKey else color;
    var s := LStrip(key, '#');
    var red :- ParseHex(Slice(s, 0, 2));
    var green :- ParseHex(Slice(s, 2, 4));
    var blue :- ParseHex(Slice(s, 4, 6));
    Ok(Rgb(red, green, blue))
  }

  /** Lower-case hex digit for `0 <= d < 16`. */
  function HexChar(d: nat): (c: char)
    requires d < 16
    ensures HexDigit(c) == Some(d)
    ensures c != '#' && !IsSpace(c) && c != '+' && c != '-'
  {
    if d < 10 then ('0' as int + d) as char else ('a' as int + d - 10) as char
  }

  /** Two lower-case hex digits for a channel value. */
  function HexPair(v: nat): (s: string)
    requires v < 256
    ensures |s| == 2
  {
    [HexChar(v / 16), HexChar(v % 16)]
  }

  predicate IsChannel(v: int) {
    0 <= v < 256
  }

  /** The `#rrggbb` form of a colour. */
  function FormatKey(c: Rgb): (s: string)
    requires IsChannel(c.r) && IsChannel(c.g) && IsChannel(c.b)
    ensures |s| == 7 && s[0] == '#'
  {
    "#" + HexPair(c.r) + HexPair(c.g) + HexPair(c.b)
  }

  lemma {:induction false} HexPairRoundTrip(v: nat)
    requires v < 256
    ensures ParseHex(HexPair(v)) == Ok(v)
  {
    var s := HexPair(v);
    assert Strip(s) == s;
    assert s[..1] == [s[0]];
    assert DigitsValue(s[..1]) == Some(v / 16);
  }

  /**
    Formatting a colour as `#rrggbb` and parsing it back gives the colour,
    except for the substituted member colour, which is keyed as yellow.
   */
  lemma {:induction false} KeyRoundTrip(c: Rgb)
    requires IsChannel(c.r) && IsChannel(c.g) && IsChannel(c.b)
    ensures ParseKey(FormatKey(c)) == Ok(if FormatKey(c) == SubstitutedColor then Rgb(255, 255, 0) else c)
  {
    var f := FormatKey(c);
    if f == SubstitutedColor {
      SubstituteKeyParses();
    } else {
      var s := HexPair(c.r) + HexPair(c.g) + HexPair(c.b);
      assert f == "#" + s;
      LStripOnce(s);
      assert Slice(s, 0, 2) == HexPair(c.r);
      assert Slice(s, 2, 4) == HexPair(c.g);
      assert Slice(s, 4, 6) == HexPair(c.b);
      HexPairRoundTrip(c.r);
      HexPairRoundTrip(c.g);
      HexPairRoundTrip(c.b);
    }
  }

  lemma {:induction false} LStripOnce(s: string)
    requires s != [] && s[0] != '#'
    ensures LStrip("#" + s, '#') == s
  {
    assert ("#" + s)[1..] == s;
  }

  /** `#aa9f00` is keyed as yellow, `(255, 255, 0)`. */
  lemma {:induction false} SubstituteKeyParses()
    ensures ParseKey(SubstitutedColor) == Ok(Rgb(255, 255, 0))
  {
    var s := SubstituteKey;
    assert LStrip(s, '#') == s;
    assert Slice(s, 0, 2) == HexPair(255);
    assert Slice(s, 2, 4) == HexPair(255);
    assert Slice(s, 4, 6) == HexPair(0);
    HexPairRoundTrip(255);
    HexPairRoundTrip(0);
  }

  /** A short key such as `#fff` leaves an empty third slice, which `int` rejects. */
  lemma {:induction false} ShortKeyFails()
    ensures ParseKey("#fff") == Err(ValueError)
  {
    var s := LStrip("#fff", '#');
    assert s == "fff" by {
      assert "#fff"[1..] == "fff";
    }
    assert Slice(s, 0, 2) == HexPair(255);
    HexPairRoundTrip(255);
    assert Slice(s, 2, 4) == "f";
    assert DigitsValue("f") == Some(15);
    assert Slice(s, 4, 6) == [];
  }

  // ---------------------------------------------------------------------------
  // Chroma keying
  // ---------------------------------------------------------------------------

  datatype Pixel = Pixel(r: int, g: int, b: int, a: int)

  const Transparent: Pixel := Pixel(0, 0, 0, 0)

  /** `item[:3] == keyColorRGB`. */
  predicate MatchesKey(p: Pixel, key: Rgb) {
    p.r == key.r && p.g == key.g && p.b == key.b
  }

  /** The pixel loop of chromaKeyImage: key-coloured pixels become transparent black. */
  function KeyOut(ps: seq<Pixel>, key: Rgb): (r: seq<Pixel>)
    ensures |r| == |ps|
    ensures forall i :: 0 <= i < |ps| ==> r[i] == (if MatchesKey(ps[i], key) then Transparent else ps[i])
    decreases |ps|
  {
    if ps == [] then []
    else [if MatchesKey(ps[0], key) then Transparent else ps[0]] + KeyOut(ps[1..], key)
  }

  /** chromaKeyImage on an RGBA image. */
  function ChromaKey(ps: seq<Pixel>, color: string): (r: Result<seq<Pixel>>)
    ensures r.Ok? <==> ParseKey(color).Ok?
    ensures r.Ok? ==> r.value == KeyOut(ps, ParseKey(color).value)
  {
    var key :- ParseKey(color);
    Ok(KeyOut(ps, key))
  }

  /**
    Keying an image twice is keying it once: no pixel the first pass leaves
    matches the key unless it is already transparent.
   */
  lemma {:induction false} KeyOutIdempotent(ps: seq<Pixel>, key: Rgb)
    ensures KeyOut(KeyOut(ps, key), key) == KeyOut(ps, key)
  {
    var once := KeyOut(ps, key);
    var twice := KeyOut(once, key);
    forall i | 0 <= i < |ps|
      ensures twice[i] == once[i]
    {
    }
  }

  /**
    A pixel is transparent after keying exactly when it matched the key or
    already was transparent, and every other pixel is unchanged.
   */
  lemma {:induction false} KeyOutExactly(ps: seq<Pixel>, key: Rgb, i: nat)
    requires i < |ps|
    ensures KeyOut(ps, key)[i] == Transparent <==> MatchesKey(ps[i], key) || ps[i] == Transparent
    ensures KeyOut(ps, key)[i] != ps[i] ==> MatchesKey(ps[i], key) && KeyOut(ps, key)[i] == Transparent
  {
  }

  // ---------------------------------------------------------------------------
  // Image keys
  // ---------------------------------------------------------------------------

  const Clear: string := "clear"
  const Light: string := "light"
  const Dark: string := "dark"

  /**
    The image side of a TrackItem: its images by key, the key shown and the
    `lastUpdateChunk` initializeTimeline left.
   */
  datatype TrackImages = TrackImages(images: map<string, seq<Pixel>>, current: string, lastUpdateChunk: int)

  /**
    The image part of the TrackItem constructor: the "dark" image must exist
    and is chroma keyed with the member's colour into a new "clear" image;
    "dark" is shown first.
   */
  function NewTrackImages(images: map<string, seq<Pixel>>, color: string, lastUpdateChunk: int): (r: Result<TrackImages>)
    ensures r.Ok? <==> Dark in images && ParseKey(color).Ok?
    ensures Dark !in images ==> r == Err(KeyError)
    ensures r.Ok? ==>
      && r.value.images.Keys == images.Keys + {Clear}
      && r.value.images[Clear] == KeyOut(images[Dark], ParseKey(color).value)
      && (forall k :: k in images && k != Clear ==> r.value.images[k] == images[k])
      && r.value.current == Dark
      && r.value.lastUpdateChunk == lastUpdateChunk
  {
    if Dark !in images then Err(KeyError)
    else
      var clear :- ChromaKey(images[Dark], color);
      Ok(TrackImages(images[Clear := clear], Dark, lastUpdateChunk))
  }

  /** switchImage: show `key`, or raise ValueError when there is no such image. */
  function SwitchImage(t: TrackImages, key: string): (r: Result<TrackImages>)
    ensures r.Ok? <==> key in t.images
    ensures r.Err? ==> r.error == ValueError
    ensures r.Ok? ==> r.value == t.(current := key)
  {
    if key in t.images then Ok(t.(current := key)) else Err(ValueError)
  }

  /** The members with a label covering `chunk`, collected as updateCanvasForCurrentPosition does. */
  function SingingMembers(labels: seq<Label>, chunk: int): set<Member>
    decreases |labels|
  {
    if labels == [] then {}
    else (if labels[0].start <= chunk <= labels[0].end then {labels[0].member} else {}) + SingingMembers(labels[1..], chunk)
  }

  /** Some label of `m` covers `chunk`, both ends included. */
  predicate Sings(labels: seq<Label>, m: Member, chunk: int) {
    exists i :: 0 <= i < |labels| && labels[i].member == m && labels[i].start <= chunk <= labels[i].end
  }

  /** The collected set holds exactly the members that sing at `chunk`. */
  lemma {:induction false} SingingMembersSpec(labels: seq<Label>, chunk: int, m: Member)
    ensures m in SingingMembers(labels, chunk) <==> Sings(labels, m, chunk)
    decreases |labels|
  {
    if labels != [] {
      SingingMembersSpec(labels[1..], chunk, m);
      if Sings(labels[1..], m, chunk) {
        var i :| 0 <= i < |labels[1..]| && labels[1..][i].member == m && labels[1..][i].start <= chunk <= labels[1..][i].end;
        assert labels[i + 1] == labels[1..][i];
      }
      if Sings(labels, m, chunk) {
        var i :| 0 <= i < |labels| && labels[i].member == m && labels[i].start <= chunk <= labels[i].end;
        if i > 0 {
          assert labels[1..][i - 1] == labels[i];
        }
      }
    }
  }

  /** The image key a member's TrackItem is switched to at `chunk`. */
  function ImageKeyFor(singing: set<Member>, m: Member, chunk: int, lastUpdateChunk: int): string {
    if chunk > lastUpdateChunk then Clear
    else if m in singing then Light
    else Dark
  }

  /**
    The image-switching loop of updateCanvasForCurrentPosition over the
    members' TrackItems in dict order; the first missing image key raises
    and ends the loop.
   */
  function UpdateImages(items: seq<(Member, TrackImages)>, singing: set<Member>, chunk: int): (r: Result<seq<(Member, TrackImages)>>)
    ensures r.Ok? <==> forall i :: 0 <= i < |items| ==>
      ImageKeyFor(singing, items[i].0, chunk, items[i].1.lastUpdateChunk) in items[i].1.images
    ensures r.Ok? ==> |r.value| == |items| && forall i :: 0 <= i < |items| ==>
      r.value[i] == (items[i].0, items[i].1.(current := ImageKeyFor(singing, items[i].0, chunk, items[i].1.lastUpdateChunk)))
    decreases |items|
  {
    if items == [] then Ok([])
    else
      var (m, t) := items[0];
      var t' :- SwitchImage(t, ImageKeyFor(singing, m, chunk, t.lastUpdateChunk));
      var rest :- UpdateImages(items[1..], singing, chunk);
      assert forall i :: 1 <= i < |items| ==> items[i] == items[1..][i - 1];
      Ok([(m, t')] + rest)
  }

  /** updateCanvasForCurrentPosition's image choice at `chunk`. */
  function UpdateCanvas(items: seq<(Member, TrackImages)>, labels: seq<Label>, chunk: int): (r: Result<seq<(Member, TrackImages)>>)
    ensures r.Ok? ==> |r.value| == |items|
  {
    UpdateImages(items, SingingMembers(labels, chunk), chunk)
  }

  /**
    After a successful canvas update every member shows "clear" past its
    last labelled chunk, otherwise "light" exactly when one of its labels
    covers the chunk, and "dark" when none does.
   */
  lemma {:induction false} UpdateCanvasShows(items: seq<(Member, TrackImages)>, labels: seq<Label>, chunk: int, i: nat)
    requires i < |items|
    requires UpdateCanvas(items, labels, chunk).Ok?
    ensures var t := UpdateCanvas(items, labels, chunk).value[i].1;
      var m := items[i].0;
      && (chunk > items[i].1.lastUpdateChunk ==> t.current == Clear)
      && (chunk <= items[i].1.lastUpdateChunk ==> (t.current == Light <==> Sings(labels, m, chunk)))
      && (chunk <= items[i].1.lastUpdateChunk ==> (t.current == Dark <==> !Sings(labels, m, chunk)))
      && t.images == items[i].1.images
  {
    SingingMembersSpec(labels, chunk, items[i].0);
  }

  /**
    TrackItems built by the constructor always have "clear" and "dark", so
    the canvas update fails only when a member sings at `chunk` before its
    last labelled chunk and has no "light" image.
   */
  lemma {:induction false} UpdateCanvasFailsOnlyOnLight(items: seq<(Member, TrackImages)>, labels: seq<Label>, chunk: int)
    requires forall i :: 0 <= i < |items| ==> Clear in items[i].1.images && Dark in items[i].1.images
    ensures UpdateCanvas(items, labels, chunk).Err? <==>
      exists i :: 0 <= i < |items| && chunk <= items[i].1.lastUpdateChunk
        && Sings(labels, items[i].0, chunk) && Light !in items[i].1.images
  {
    forall i | 0 <= i < |items|
      ensures items[i].0 in SingingMembers(labels, chunk) <==> Sings(labels, items[i].0, chunk)
    {
      SingingMembersSpec(labels, chunk, items[i].0);
    }
  }

  /** A freshly built TrackItem has both images the update falls back on. */
  lemma {:induction false} NewTrackImagesHasFallbacks(images: map<string, seq<Pixel>>, color: string, lastUpdateChunk: int)
    requires NewTrackImages(images, color, lastUpdateChunk).Ok?
    ensures var t := NewTrackImages(images, color, lastUpdateChunk).value;
      Clear in t.images && Dark in t.images && SwitchImage(t, Clear).Ok? && SwitchImage(t, Dark).Ok?
  {
  }
}
