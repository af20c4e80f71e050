/** The embedded emoji images: their pack file, and finding the emoji a text starts with. */
module EmojiPack {
  import opened Basics
  import opened LittleEndian
  import Utf8

  // ----- The format -----

  const MAGIC: Bytes := Ascii("MCEMOJW1")

  datatype Entry = Entry(key: Bytes, image: Bytes)

  predicate IsAscii(key: Bytes) {
    forall i :: 0 <= i < |key| ==> key[i] < 0x80
  }

  /** An entry the format can hold. */
  predicate Fits(e: Entry) {
    |e.key| < Power(2) && |e.image| < Power(4)
  }

  predicate Good(e: Entry) {
    Fits(e) && Utf8.Valid(e.key)
  }

  predicate AllGood(es: seq<Entry>) {
    forall i :: 0 <= i < |es| ==> Good(es[i])
  }

  function PrintEntry(e: Entry): Bytes {
    Little(|e.key|, 2) + (e.key + (Little(|e.image|, 4) + e.image))
  }

  function PrintEntries(es: seq<Entry>): Bytes {
    if es == [] then [] else PrintEntry(es[0]) + PrintEntries(es[1..])
  }

  function Print(es: seq<Entry>): Bytes {
    MAGIC + (Little(|es|, 4) + PrintEntries(es))
  }

  /** The last image of each key that is not plain ASCII. */
  function Index(es: seq<Entry>): map<Bytes, Bytes> {
    if es == [] then map[]
    else
      var before, e := Index(es[..|es| - 1]), es[|es| - 1];
      if IsAscii(e.key) then before else before[e.key := e.image]
  }

  lemma {:induction false} IndexIsLastWins(es: seq<Entry>, key: Bytes)
    ensures key in Index(es) <==> !IsAscii(key) && exists i :: 0 <= i < |es| && es[i].key == key
    ensures forall i :: 0 <= i < |es| && es[i].key == key && !IsAscii(key) && (forall j :: i < j < |es| ==>
              es[j].key != key)
              ==> Index(es)[key] == es[i].image
  {
    if es != [] {
      var front := es[..|es| - 1];
      IndexIsLastWins(front, key);
      if i :| 0 <= i < |front| && front[i].key == key {
        assert es[i].key == key;
      }
      assert es[|es| - 1].key == key ==> exists i :: 0 <= i < |es| && es[i].key == key;
      forall i | 0 <= i < |es| && es[i].key == key && !IsAscii(key) && forall j :: i < j < |es| ==> es[j].key != key
        ensures Index(es)[key] == es[i].image
      {
        if i < |front| {
          assert front[i] == es[i];
          assert forall j :: i < j < |front| ==> front[j] == es[j];
          assert es[|es| - 1].key != key;
        }
      }
    }
  }

  /** A pack of one entry in bytes: the magic, the count, and each text behind its length. */
  lemma PrintInBytes(e: Entry)
    ensures Print([e]) ==
            [77, 67, 69, 77, 79, 74, 87, 49] + (Little(1, 4) +
            (Little(|e.key|, 2) + (e.key + (Little(|e.image|, 4) + e.image))))
  {
    hide Little;
    assert MAGIC == [77, 67, 69, 77, 79, 74, 87, 49];
    assert [e][1..] == [] && PrintEntries([]) == [];
    assert PrintEntry(e) + [] == PrintEntry(e);
  }

  lemma {:induction false} PrintInOrder(a: seq<Entry>, b: seq<Entry>)
    ensures PrintEntries(a + b) == PrintEntries(a) + PrintEntries(b)
  {
    hide PrintEntry;
    if a == [] {
      assert a + b == b;
    } else {
      assert (a + b)[1..] == a[1..] + b;
      PrintInOrder(a[1..], b);
    }
  }

  // ----- Reading -----

  /** Splits off a length of `k` bytes and that many bytes. */
  function ReadBlock(rest: Bytes, k: nat): (r: Option<(Bytes, Bytes)>) {
    if |rest| < k then None
    else
      var n := FromLittle(rest[..k]);
      if |rest| - k < n then None else Some((rest[k..k + n], rest[k + n..]))
  }

  /** A block is read exactly from its printed form, whatever follows. */
  lemma ReadBlockIff(rest: Bytes, k: nat, block: Bytes, tail: Bytes)
    ensures ReadBlock(rest, k) == Some((block, tail))
            <==> |block| < Power(k) && rest == Little(|block|, k) + (block + tail)
  {
    hide Power, Little, FromLittle;
    if ReadBlock(rest, k) == Some((block, tail)) {
      LittleIsOnto(rest[..k]);
      SplitTwice(rest, k, k + |block|);
    } else if |block| < Power(k) && rest == Little(|block|, k) + (block + tail) {
      LittleReadBack(|block|, k);
      JoinedTwice(Little(|block|, k), block, tail);
      assert false;
    }
  }

  lemma SplitTwice(s: Bytes, i: nat, j: nat)
    requires i <= j <= |s|
    ensures s == s[..i] + (s[i..j] + s[j..])
  {
  }

  lemma JoinedTwice(a: Bytes, b: Bytes, c: Bytes)
    ensures (a + (b + c))[..|a|] == a
    ensures (a + (b + c))[|a|..|a| + |b|] == b
    ensures (a + (b + c))[|a| + |b|..] == c
  {
  }

  function ReadEntry(rest: Bytes): Option<(Entry, Bytes)> {
    match ReadBlock(rest, 2)
    case None => None
    case Some((key, more)) =>
      if !Utf8.Valid(key) then None
      else match ReadBlock(more, 4)
        case None => None
        case Some((image, tail)) => Some((Entry(key, image), tail))
  }

  lemma PrintEntryThen(e: Entry, tail: Bytes)
    ensures PrintEntry(e) + tail == Little(|e.key|, 2) + (e.key + (Little(|e.image|, 4) + (e.image + tail)))
  {
  }

  lemma ReadEntryIff(rest: Bytes, e: Entry, tail: Bytes)
    ensures ReadEntry(rest) == Some((e, tail)) <==> Good(e) && rest == PrintEntry(e) + tail
  {
    hide Power, Little, ReadBlock, PrintEntry, Utf8.Valid;
    var more := Little(|e.image|, 4) + (e.image + tail);
    PrintEntryThen(e, tail);
    ReadBlockIff(rest, 2, e.key, more);
    ReadBlockIff(more, 4, e.image, tail);
    if ReadEntry(rest) == Some((e, tail)) {
      var found := ReadBlock(rest, 2).value.1;
      ReadBlockIff(rest, 2, e.key, found);
      ReadBlockIff(found, 4, e.image, tail);
    }
  }

  function ReadEntries(rest: Bytes, count: nat): Option<seq<Entry>> {
    if count == 0 then Some([])
    else match ReadEntry(rest)
      case None => None
      case Some((e, tail)) =>
        match ReadEntries(tail, count - 1)
        case None => None
        case Some(es) => Some([e] + es)
  }

  function Parse(pack: Bytes): Option<map<Bytes, Bytes>> {
    if !(MAGIC <= pack) || |pack| - |MAGIC| < 4 then None
    else
      var rest := pack[|MAGIC|..];
      match ReadEntries(rest[4..], FromLittle(rest[..4]))
      case None => None
      case Some(es) => Some(Index(es))
  }

  lemma {:induction false} ReadIsPrinted(rest: Bytes, count: nat, es: seq<Entry>) returns (tail: Bytes)
    requires ReadEntries(rest, count) == Some(es)
    ensures |es| == count && AllGood(es) && rest == PrintEntries(es) + tail
    decreases count
  {
    hide ReadEntry, PrintEntry, Good;
    if count == 0 {
      tail := rest;
    } else {
      var (e, more) := ReadEntry(rest).value;
      ReadEntryIff(rest, e, more);
      assert es[0] == e && es[1..] == ReadEntries(more, count - 1).value;
      tail := ReadIsPrinted(more, count - 1, es[1..]);
      assert forall i :: 0 < i < |es| ==> es[i] == es[1..][i - 1];
    }
  }

  /** Printed entries are read back whatever follows them. */
  lemma {:induction false} PrintedIsRead(es: seq<Entry>, tail: Bytes)
    requires AllGood(es)
    ensures ReadEntries(PrintEntries(es) + tail, |es|) == Some(es)
  {
    hide ReadEntry, PrintEntry, Good;
    if es != [] {
      var more := PrintEntries(es[1..]) + tail;
      assert PrintEntries(es) + tail == PrintEntry(es[0]) + more;
      ReadEntryIff(PrintEntries(es) + tail, es[0], more);
      PrintedIsRead(es[1..], tail);
      assert es == [es[0]] + es[1..];
    }
  }

  /** `es` and then anything make up the pack. */
  ghost predicate Holds(pack: Bytes, es: seq<Entry>) {
    |es| < Power(4) && AllGood(es) && Print(es) <= pack
  }

  /** After the magic and the count, the entries decide. */
  lemma ParseOfPrint(es: seq<Entry>, tail: Bytes)
    requires |es| < Power(4)
    ensures Parse(Print(es) + tail) ==
              match ReadEntries(PrintEntries(es) + tail, |es|)
              case None => None
              case Some(read) => Some(Index(read))
  {
    hide Power, Little, FromLittle, PrintEntries, ReadEntries, Index;
    var pack, body := Print(es) + tail, PrintEntries(es) + tail;
    assert pack == MAGIC + (Little(|es|, 4) + body);
    JoinedTwice(MAGIC, Little(|es|, 4), body);
    assert pack[|MAGIC|..] == Little(|es|, 4) + body;
    LittleReadBack(|es|, 4);
  }

  lemma HeldIsParsed(pack: Bytes, es: seq<Entry>)
    requires Holds(pack, es)
    ensures Parse(pack) == Some(Index(es))
  {
    hide Power, Print, PrintEntries, ReadEntries, Good, Index, Parse;
    var tail := pack[|Print(es)|..];
    assert pack == Print(es) + tail;
    ParseOfPrint(es, tail);
    PrintedIsRead(es, tail);
  }

  lemma ParsedIsHeld(pack: Bytes) returns (es: seq<Entry>)
    requires Parse(pack).Some?
    ensures Holds(pack, es)
  {
    hide Power, Little, FromLittle, PrintEntries, ReadEntries, Good, Index;
    var rest := pack[|MAGIC|..];
    es := ReadEntries(rest[4..], FromLittle(rest[..4])).value;
    LittleIsOnto(rest[..4]);
    var tail := ReadIsPrinted(rest[4..], FromLittle(rest[..4]), es);
    SplitTwice(pack, |MAGIC|, |MAGIC| + 4);
    assert pack == Print(es) + tail;
  }

  /** A pack is accepted exactly when it starts with printed entries whose keys are UTF-8, and then its
      index is the last image of each key that is not plain ASCII. */
  lemma ParsedIff(pack: Bytes, index: map<Bytes, Bytes>)
    ensures Parse(pack) == Some(index) <==> exists es :: Holds(pack, es) && Index(es) == index
  {
    hide Parse, Holds, Index;
    if Parse(pack) == Some(index) {
      var es := ParsedIsHeld(pack);
      HeldIsParsed(pack, es);
    }
    if es :| Holds(pack, es) && Index(es) == index {
      HeldIsParsed(pack, es);
    }
  }

  lemma {:induction false} PrintedBad(es: seq<Entry>, tail: Bytes)
    requires forall i :: 0 <= i < |es| ==> Fits(es[i])
    requires !AllGood(es)
    ensures ReadEntries(PrintEntries(es) + tail, |es|).None?
  {
    hide ReadEntry, PrintEntry, Power, Utf8.Valid;
    var more := PrintEntries(es[1..]) + tail;
    assert PrintEntries(es) + tail == PrintEntry(es[0]) + more;
    if Good(es[0]) {
      ReadEntryIff(PrintEntries(es) + tail, es[0], more);
      assert forall i :: 0 <= i < |es[1..]| ==> es[1..][i] == es[i + 1];
      PrintedBad(es[1..], tail);
    } else {
      BadKey(es[0], more);
    }
  }

  lemma BadKey(e: Entry, tail: Bytes)
    requires Fits(e) && !Utf8.Valid(e.key)
    ensures ReadEntry(PrintEntry(e) + tail).None?
  {
    hide Power, Little, ReadBlock, PrintEntry, Utf8.Valid;
    PrintEntryThen(e, tail);
    ReadBlockIff(PrintEntry(e) + tail, 2, e.key, Little(|e.image|, 4) + (e.image + tail));
  }

  /** Printing any entries the format can hold and reading them, whatever bytes follow, returns their
      index, or nothing when some key is not UTF-8. */
  lemma PrintedIsParsed(es: seq<Entry>, junk: Bytes)
    requires |es| < Power(4) && forall i :: 0 <= i < |es| ==> Fits(es[i])
    ensures Parse(Print(es) + junk) == if AllGood(es) then Some(Index(es)) else None
  {
    hide Power, Print, PrintEntries, ReadEntries, Index, Parse, AllGood, Good;
    ParseOfPrint(es, junk);
    if AllGood(es) {
      PrintedIsRead(es, junk);
    } else {
      PrintedBad(es, junk);
    }
  }

  // ----- The parser -----

  /** Reading all `count` entries comes down to `read` and the `left` entries at the start of `rest`. */
  ghost predicate Remains(body: Bytes, count: nat, read: seq<Entry>, rest: Bytes, left: nat) {
    ReadEntries(body, count) ==
      match ReadEntries(rest, left)
      case None => None
      case Some(es) => Some(read + es)
  }

  lemma NextRemains(body: Bytes, count: nat, read: seq<Entry>, rest: Bytes, left: nat)
    requires left > 0 && Remains(body, count, read, rest, left)
    ensures ReadEntry(rest).None? ==> ReadEntries(body, count).None?
    ensures ReadEntry(rest).Some? ==>
              Remains(body, count, read + [ReadEntry(rest).value.0], ReadEntry(rest).value.1, left - 1)
  {
    hide ReadEntry;
    if ReadEntry(rest).Some? {
      var (e, tail) := ReadEntry(rest).value;
      var es := ReadEntries(tail, left - 1);
      if es.Some? {
        assert read + ([e] + es.value) == read + [e] + es.value;
      }
    }
  }

  lemma IndexOfSnoc(read: seq<Entry>, e: Entry)
    ensures Index(read + [e]) == if IsAscii(e.key) then Index(read) else Index(read)[e.key := e.image]
  {
    assert (read + [e])[..|read|] == read;
  }

  /** `parse_pack`. */
  method ParsePack(pack: Bytes) returns (r: Option<map<Bytes, Bytes>>)
    ensures r == Parse(pack)
  {
    hide Index, ReadEntries, FromLittle, Remains, Utf8.Valid, IsAscii;
    if !(MAGIC <= pack) {
      return None;
    }
    var rest := pack[|MAGIC|..];
    if |rest| < 4 {
      return None;
    }
    var count := FromLittle(rest[..4]);
    rest := rest[4..];
    ghost var body, read := rest, [];
    var entries: map<Bytes, Bytes> := map[];
    StartRemains(body, count);
    for i := 0 to count
      invariant Remains(body, count, read, rest, count - i)
      invariant entries == Index(read)
    {
      NextRemains(body, count, read, rest, count - i);
      var key := ReadBlock(rest, 2);
      if key.None? || !Utf8.Valid(key.value.0) {
        return None;
      }
      var image := ReadBlock(key.value.1, 4);
      if image.None? {
        return None;
      }
      IndexOfSnoc(read, Entry(key.value.0, image.value.0));
      read := read + [Entry(key.value.0, image.value.0)];
      if !IsAscii(key.value.0) {
        entries := entries[key.value.0 := image.value.0];
      }
      rest := image.value.1;
    }
    EndRemains(body, count, read, rest);
    return Some(entries);
  }

  lemma StartRemains(body: Bytes, count: nat)
    ensures Remains(body, count, [], body, count) && Index([]) == map[]
  {
    var es := ReadEntries(body, count);
    if es.Some? {
      assert [] + es.value == es.value;
    }
  }

  lemma EndRemains(body: Bytes, count: nat, read: seq<Entry>, rest: Bytes)
    requires Remains(body, count, read, rest, 0)
    ensures ReadEntries(body, count) == Some(read)
  {
    assert read + [] == read;
  }

  // ----- Finding emoji -----

  const MAX_SEQUENCE_CHARS := 16
  const VARIATION_SELECTOR_16: Utf8.Scalar := 0xFE0F

  /** The text without variation selectors. */
  function Strip(text: seq<Utf8.Scalar>): seq<Utf8.Scalar> {
    if text == [] then []
    else Strip(text[..|text| - 1]) + if text[|text| - 1] == VARIATION_SELECTOR_16 then [] else [text[|text| - 1]]
  }

  /** Only the selectors go, and everything else keeps its order. */
  lemma {:induction false} StripInOrder(a: seq<Utf8.Scalar>, b: seq<Utf8.Scalar>)
    ensures Strip(a + b) == Strip(a) + Strip(b)
  {
    if b == [] {
      assert a + b == a;
    } else {
      var n := |b| - 1;
      assert (a + b)[..|a| + n] == a + b[..n];
      StripInOrder(a, b[..n]);
    }
  }

  lemma StripOfOne(c: Utf8.Scalar)
    ensures Strip([c]) == if c == 0xFE0F then [] else [c]
  {
    assert [c][..0] == [] && Strip([]) == [];
  }

  /** The key a text is looked up under. */
  function Key(text: seq<Utf8.Scalar>): Bytes {
    Utf8.EncodeAll(Strip(text))
  }

  /** The first `n` characters are an emoji of the set. */
  ghost predicate IsEmoji(index: map<Bytes, Bytes>, text: seq<Utf8.Scalar>, n: nat) {
    1 <= n <= Min(|text|, 16) && Key(text[..n]) in index
  }

  /** `n` characters are the longest emoji at the start of the text. */
  ghost predicate Longest(index: map<Bytes, Bytes>, text: seq<Utf8.Scalar>, n: nat) {
    IsEmoji(index, text, n) && forall m: nat :: IsEmoji(index, text, m) ==> m <= n
  }

  lemma KeyOfNext(text: seq<Utf8.Scalar>, n: nat)
    requires n < |text|
    ensures Key(text[..n + 1]) == Key(text[..n]) + if text[n] == VARIATION_SELECTOR_16 then [] else Utf8.Encode(text[n])
    ensures Utf8.EncodeAll(text[..n + 1]) == Utf8.EncodeAll(text[..n]) + Utf8.Encode(text[n])
  {
    assert text[..n + 1][..n] == text[..n];
    var s := Strip(text[..n]);
    if text[n] == VARIATION_SELECTOR_16 {
      assert s + [] == s;
    } else {
      assert (s + [text[n]])[..|s|] == s;
    }
  }

  /** `leading_emoji_len`: the bytes of the longest emoji at the start, if there is one; `chars` counts
      its characters. */
  method LeadingEmojiLen(index: map<Bytes, Bytes>, text: seq<Utf8.Scalar>)
    returns (longest: Option<nat>, chars: nat)
    ensures longest.Some? ==> Longest(index, text, chars) && longest.value == |Utf8.EncodeAll(text[..chars])|
    ensures longest.None? ==> forall n: nat :: !IsEmoji(index, text, n)
  {
    hide Key, Utf8.Encode, Utf8.EncodeAll;
    var key: Bytes := [];
    longest := None;
    chars := 0;
    var offset := 0;
    NoText(text);
    for k := 0 to if |text| < MAX_SEQUENCE_CHARS then |text| else MAX_SEQUENCE_CHARS
      invariant key == Key(text[..k]) && offset == |Utf8.EncodeAll(text[..k])|
      invariant longest.None? ==> forall n: nat :: n <= k ==> !IsEmoji(index, text, n)
      invariant longest.Some? ==>
          chars <= k && IsEmoji(index, text, chars) && longest.value == |Utf8.EncodeAll(text[..chars])|
      invariant longest.Some? ==> forall n: nat :: n <= k && IsEmoji(index, text, n) ==> n <= chars
    {
      KeyOfNext(text, k);
      if text[k] != VARIATION_SELECTOR_16 {
        key := key + Utf8.Encode(text[k]);
      }
      if key in index {
        longest := Some(offset + |Utf8.Encode(text[k])|);
        chars := k + 1;
      }
      offset := offset + |Utf8.Encode(text[k])|;
    }
  }

  lemma NoText(text: seq<Utf8.Scalar>)
    ensures Key(text[..0]) == [] && Utf8.EncodeAll(text[..0]) == []
  {
  }

  /** Decoded images are remembered under their key. */
  class ImageCache<Image> {
    const index: map<Bytes, Bytes>
    const decode: Bytes -> Option<Image>
    const empty: Image
    var decoded: map<Bytes, Image>

    /** The image under a key, or the empty one. */
    function Lookup(key: Bytes): Image {
      if key in index then Decoded(index[key]) else empty
    }

    /** Bytes that are no image stand for the empty one. */
    function Decoded(image: Bytes): Image {
      if decode(image).Some? then decode(image).value else empty
    }

    ghost predicate Valid()
      reads this
    {
      forall key :: key in decoded ==> decoded[key] == Lookup(key)
    }

    constructor (index: map<Bytes, Bytes>, decode: Bytes -> Option<Image>, empty: Image)
      ensures Valid() && this.index == index && this.decode == decode && this.empty == empty
    {
      this.index, this.decode, this.empty, decoded := index, decode, empty, map[];
    }

    /** `image_for`: remembering changes no answer. */
    method ImageFor(emoji: seq<Utf8.Scalar>) returns (image: Image)
      requires Valid()
      modifies this
      ensures Valid()
      ensures image == if emoji == [] then empty else Lookup(Key(emoji))
    {
      if emoji == [] {
        return empty;
      }
      var key := Key(emoji);
      if key in decoded {
        return decoded[key];
      }
      image := Lookup(key);
      decoded := decoded[key := image];
    }
  }

  /** Entry `i` is the last one with this key. */
  ghost predicate LastOf(es: seq<Entry>, i: nat, key: Bytes) {
    i < |es| && es[i].key == key && forall j :: i < j < |es| ==> es[j].key != key
  }

  lemma {:induction false} FindLast(es: seq<Entry>, key: Bytes) returns (i: nat)
    requires exists k :: 0 <= k < |es| && es[k].key == key
    ensures LastOf(es, i, key)
  {
    var n := |es| - 1;
    if es[n].key == key {
      i := n;
    } else {
      var k :| 0 <= k < |es| && es[k].key == key;
      assert es[..n][k].key == key;
      i := FindLast(es[..n], key);
    }
  }

  /** The image an entry of the pack shows for a text. */
  ghost predicate Shows<Image>(cache: ImageCache<Image>, es: seq<Entry>, key: Bytes, image: Image) {
    exists i :: 0 <= i < |es| && LastOf(es, i, key) && image == cache.Decoded(es[i].image)
  }

  /** With the index of a pack, an emoji at the start of a text is looked up to the image of the pack's
      last entry with its key, and it is never plain ASCII. */
  lemma {:induction false} LeadingHits<Image>(pack: Bytes, es: seq<Entry>, cache: ImageCache<Image>,
                                              text: seq<Utf8.Scalar>, n: nat)
    requires Holds(pack, es) && Parse(pack) == Some(cache.index) && IsEmoji(cache.index, text, n)
    ensures Shows(cache, es, Key(text[..n]), cache.Lookup(Key(text[..n])))
    ensures exists i :: 0 <= i < n && text[i] >= 0x80
  {
    hide Parse, Index, Key;
    var key := Key(text[..n]);
    HeldIsParsed(pack, es);
    IndexIsLastWins(es, key);
    var i := FindLast(es, key);
    assert cache.index[key] == es[i].image;
    if forall i :: 0 <= i < n ==> text[i] < 0x80 {
      AsciiKey(text[..n]);
      assert false;
    }
  }

  /** Showing the emoji a text starts with: its length in bytes and the image of its entry in the pack. */
  method LeadingImage<Image>(pack: Bytes, ghost es: seq<Entry>, cache: ImageCache<Image>, text: seq<Utf8.Scalar>)
    returns (longest: Option<nat>, chars: nat, image: Image)
    requires cache.Valid() && Holds(pack, es) && Parse(pack) == Some(cache.index)
    modifies cache
    ensures cache.Valid()
    ensures longest.Some? ==> Longest(cache.index, text, chars)
    ensures longest.Some? ==> longest.value == |Utf8.EncodeAll(text[..chars])|
    ensures longest.Some? ==> Shows(cache, es, Key(text[..chars]), image)
    ensures longest.None? ==> image == cache.empty && forall n: nat :: !IsEmoji(cache.index, text, n)
  {
    hide Parse, Key, Holds, Utf8.EncodeAll;
    longest, chars := LeadingEmojiLen(cache.index, text);
    if longest.None? {
      image := cache.empty;
    } else {
      LeadingHits(pack, es, cache, text, chars);
      image := cache.ImageFor(text[..chars]);
    }
  }

  lemma {:induction false} AsciiKey(text: seq<Utf8.Scalar>)
    requires forall i :: 0 <= i < |text| ==> text[i] < 0x80
    ensures IsAscii(Key(text))
  {
    hide Key;
    if text != [] {
      var n := |text| - 1;
      KeyOfNext(text, n);
      assert text[..n + 1] == text;
      AsciiKey(text[..n]);
    } else {
      NoText(text);
      assert text[..0] == text;
    }
  }

  /** A selector right after an emoji belongs to it. */
  lemma SelectorIsIncluded(index: map<Bytes, Bytes>, text: seq<Utf8.Scalar>, n: nat)
    requires Longest(index, text, n)
    ensures n == MAX_SEQUENCE_CHARS || n == |text| || text[n] != VARIATION_SELECTOR_16
  {
    hide Key;
    if n < |text| {
      KeyOfNext(text, n);
      assert Key(text[..n]) + [] == Key(text[..n]);
      assert !IsEmoji(index, text, n + 1);
    }
  }
}
