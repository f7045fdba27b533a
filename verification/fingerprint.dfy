/** Record identifiers (`srv_<ms>_<r>` from `generateServerHash`,
    `bot_<ms>_<r>` in `createBot`) and the bot API key from
    `generateAPIKey`. The clock reading, the random integer and the random
    bytes are parameters. */
module Fingerprint {
  import opened Wrappers
  import opened Text
  import opened Hex

  /** `Math.floor(Math.random() * 10000)`. */
  type RandomTag = r: nat | r < 10000

  /** `crypto.randomBytes(16)`. */
  type KeyBytes = b: seq<Byte> | |b| == 16 witness seq(16, i => 0)

  const ServerTag := "srv"
  const BotTag := "bot"

  /** The three components of an identifier. */
  datatype Parts = Parts(tag: string, ms: nat, rand: nat)

  /** `${tag}_${ms}_${rand}`. */
  function MakeHash(tag: string, ms: nat, rand: RandomTag): string {
    tag + "_" + ShowNat(ms) + "_" + ShowNat(rand)
  }

  /** Splits an identifier at its first two underscores and reads both
      numbers; anything not of that shape is rejected. */
  function ParseHash(h: string): Option<Parts> {
    match IndexOf(h, '_')
    case None => None
    case Some(i) =>
      var rest := h[i + 1..];
      match IndexOf(rest, '_')
      case None => None
      case Some(j) =>
        match (ParseNat(rest[..j]), ParseNat(rest[j + 1..]))
        case (Some(ms), Some(rand)) => Some(Parts(h[..i], ms, rand))
        case _ => None
  }

  /** Every identifier built from an underscore-free tag parses back into
      exactly the tag, the clock reading and the random integer. */
  lemma ParseMakeHash(tag: string, ms: nat, rand: RandomTag)
    requires '_' !in tag
    ensures ParseHash(MakeHash(tag, ms, rand)) == Some(Parts(tag, ms, rand))
  {
    var h := MakeHash(tag, ms, rand);
    var digits := ShowNat(ms);
    assert '_' !in digits by {
      assert forall k :: 0 <= k < |digits| ==> IsDigit(digits[k]);
    }
    var rest := digits + "_" + ShowNat(rand);
    assert h == tag + "_" + rest;
    IndexOfFirst(tag, '_', rest);
    assert h[..|tag|] == tag && h[|tag| + 1..] == rest;
    IndexOfFirst(digits, '_', ShowNat(rand));
    assert rest[..|digits|] == digits;
    assert rest[|digits| + 1..] == ShowNat(rand);
    ParseShowNat(ms);
    ParseShowNat(rand);
    assert ParseHash(h) == Some(Parts(h[..|tag|], ms, rand));
  }

  /** A string `ParseHash` accepts is exactly the identifier built from
      the parts it reads: the reading is injective. */
  lemma ParseHashExact(h: string, tag: string, ms: nat, rand: nat)
    requires ParseHash(h) == Some(Parts(tag, ms, rand))
    ensures h == tag + "_" + ShowNat(ms) + "_" + ShowNat(rand)
  {
    var i := IndexOf(h, '_').value;
    var rest := h[i + 1..];
    var j := IndexOf(rest, '_').value;
    assert tag == h[..i] && ParseNat(rest[..j]) == Some(ms) && ParseNat(rest[j + 1..]) == Some(rand);
    ShowParseNat(rest[..j]);
    ShowParseNat(rest[j + 1..]);
    JoinAtSeparators(h, i, j);
  }

  /** A string cut at a `'_'` in position `i` and at another `'_'` in
      position `j` of what follows is the three pieces joined by `'_'`. */
  lemma JoinAtSeparators(h: string, i: nat, j: nat)
    requires i < |h| && h[i] == '_' && j < |h[i + 1..]| && h[i + 1..][j] == '_'
    ensures h == h[..i] + "_" + h[i + 1..][..j] + "_" + h[i + 1..][j + 1..]
  {
    CutAt(h[i + 1..], j);
    CutAt(h, i);
  }

  /** A string is its prefix, the character at `i`, and its suffix. */
  lemma CutAt(s: string, i: nat)
    requires i < |s|
    ensures s == s[..i] + [s[i]] + s[i + 1..]
  {
  }

  /** Only the identifier itself reads back as its parts. */
  lemma OnlyIdentifierWithParts(tag: string, ms: nat, rand: RandomTag)
    requires '_' !in tag
    ensures forall g :: ParseHash(g) == Some(Parts(tag, ms, rand)) ==> g == MakeHash(tag, ms, rand)
  {
    forall g | ParseHash(g) == Some(Parts(tag, ms, rand))
      ensures g == MakeHash(tag, ms, rand)
    {
      ParseHashExact(g, tag, ms, rand);
    }
  }

  /** `generateServerHash()`: parses back as tag "srv", the clock reading
      and the random integer below 10000, and is the only string that does. */
  function GenerateServerHash(ms: nat, rand: RandomTag): (h: string)
    ensures ParseHash(h) == Some(Parts(ServerTag, ms, rand))
    ensures forall g :: ParseHash(g) == Some(Parts(ServerTag, ms, rand)) ==> g == h
  {
    ParseMakeHash(ServerTag, ms, rand);
    OnlyIdentifierWithParts(ServerTag, ms, rand);
    MakeHash(ServerTag, ms, rand)
  }

  /** The identifier `createBot` assigns: parses back as tag "bot", and is
      the only string that does. */
  function GenerateBotHash(ms: nat, rand: RandomTag): (h: string)
    ensures ParseHash(h) == Some(Parts(BotTag, ms, rand))
    ensures forall g :: ParseHash(g) == Some(Parts(BotTag, ms, rand)) ==> g == h
  {
    ParseMakeHash(BotTag, ms, rand);
    OnlyIdentifierWithParts(BotTag, ms, rand);
    MakeHash(BotTag, ms, rand)
  }

  /** `generateAPIKey()`: 32 lower-case hex digits that decode back to
      the 16 random bytes. */
  function GenerateAPIKey(bytes: KeyBytes): (key: string)
    ensures |key| == 32
    ensures forall j :: 0 <= j < |key| ==> IsHexChar(key[j])
    ensures forall i :: 0 <= i < 16 ==>
              key[2 * i] == NibbleChar(bytes[i] / 16) && key[2 * i + 1] == NibbleChar(bytes[i] % 16)
    ensures HexDecode(key) == Some(bytes)
  {
    DecodeEncode(bytes);
    HexEncode(bytes)
  }
}
