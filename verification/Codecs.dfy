/** Identities, cursors and tokens that the runtime writes into text and reads back. */
module Codecs {
  import opened Text

  // ---- length-framed stream identities ----

  /** `{len}:{text}`. */
  function Framed(s: string): string { Decimal(|s|) + (":" + s) }

  lemma Assoc(a: string, b: string, c: string)
    ensures (a + b) + c == a + (b + c)
  {
  }

  lemma FramedUnique(s: string, x: string, s': string, x': string)
    requires Framed(s) + x == Framed(s') + x'
    ensures s == s' && x == x'
  {
    FramedThen(s, x);
    FramedThen(s', x');
    SplitUnique(Decimal(|s|), s + x, Decimal(|s'|), s' + x', ':');
    DecimalInjective(|s|, |s'|);
    ConcatUnique(s, x, s', x');
  }

  lemma FramedThen(s: string, x: string)
    ensures Framed(s) + x == Decimal(|s|) + ([':'] + (s + x))
  {
    Assoc(Decimal(|s|), ":" + s, x);
    Assoc(":", s, x);
  }

  function RealmPart(realm: Option<string>): string {
    match realm
    case None => "0:"
    case Some(r) => "1:" + Framed(r)
  }

  function EncodeStreamId(realm: Option<string>, category: string, key: string): string {
    RealmPart(realm) + ("|" + (Framed(category) + ("|" + Framed(key))))
  }

  function DecodeFramed(value: string): Option<string> {
    match SplitOnce(value, ':')
    case None => None
    case Some((length, text)) =>
      var n := ParseU64(length);
      if n == Some(|text|) && text != "" then Some(text) else None
  }

  /** `None` is the refusal; a present realm decodes to `Some(Some(realm))`. */
  function DecodeRealm(part: string): Option<Option<string>> {
    if part == "0:" then Some(None)
    else
      match StripPrefix(part, "1:")
      case None => None
      case Some(encoded) =>
        match DecodeFramed(encoded)
        case None => None
        case Some(realm) => Some(Some(realm))
  }

  function DecodeStreamId(value: string): Option<(Option<string>, string, string)> {
    match SplitOnce(value, '|')
    case None => None
    case Some((realmPart, rest)) =>
      match DecodeRealm(realmPart)
      case None => None
      case Some(realm) =>
        match SplitOnce(rest, '|')
        case None => None
        case Some((category, key)) =>
          match (DecodeFramed(category), DecodeFramed(key))
          case (Some(c), Some(k)) => Some((realm, c, k))
          case _ => None
  }

  /** A framed part: a number, a colon, and a text of that many bytes that is not empty. */
  ghost predicate IsFramed(part: string, text: string) {
    text != "" && exists digits :: ':' !in digits && part == digits + ([':'] + text) && ParseU64(digits) == Some(|text|)
  }

  lemma DecodeFramedIff(part: string, text: string)
    ensures DecodeFramed(part) == Some(text) <==> IsFramed(part, text)
  {
    if SplitOnce(part, ':').Some? { SplitOnceMeans(part, ':'); }
    if digits :| ':' !in digits && part == digits + ([':'] + text) && ParseU64(digits) == Some(|text|) {
      SplitOnceConcat(digits, ':', text);
    }
  }

  /** The realm part of an identity: absent, or present and framed. */
  ghost predicate IsRealmPart(part: string, realm: Option<string>) {
    if realm.None? then part == "0:" else exists rest :: part == "1:" + rest && IsFramed(rest, realm.value)
  }

  lemma DecodeRealmIff(part: string, realm: Option<string>)
    ensures DecodeRealm(part) == Some(realm) <==> IsRealmPart(part, realm)
  {
    if StripPrefix(part, "1:").Some? {
      StripPrefixMeans(part, "1:");
      if realm.Some? { DecodeFramedIff(StripPrefix(part, "1:").value, realm.value); }
    }
    if realm.Some? {
      if rest :| part == "1:" + rest && IsFramed(rest, realm.value) {
        assert StripPrefix(part, "1:") == Some(rest) && part[0] == '1';
        DecodeFramedIff(rest, realm.value);
      }
    }
  }

  /** The text is a realm part, a framed category and a framed key, separated by bars. */
  ghost predicate IsIdentity(value: string, realm: Option<string>, category: string, key: string) {
    exists a, b, c :: SpelledBy(value, a, b, c) && IsRealmPart(a, realm) && IsFramed(b, category) && IsFramed(c, key)
  }

  predicate SpelledBy(value: string, a: string, b: string, c: string) {
    '|' !in a && '|' !in b && value == a + (['|'] + (b + (['|'] + c)))
  }

  /** Exactly the well-formed identities are accepted, and they are read as what they spell. */
  lemma DecodeStreamIdIff(value: string, realm: Option<string>, category: string, key: string)
    ensures DecodeStreamId(value) == Some((realm, category, key)) <==> IsIdentity(value, realm, category, key)
  {
    if DecodeStreamId(value) == Some((realm, category, key)) {
      DecodedIsIdentity(value, realm, category, key);
    }
    if a, b, c :| SpelledBy(value, a, b, c) && IsRealmPart(a, realm) && IsFramed(b, category) && IsFramed(c, key) {
      SplitOnceConcat(a, '|', b + (['|'] + c));
      SplitOnceConcat(b, '|', c);
      DecodeRealmIff(a, realm);
      DecodeFramedIff(b, category);
      DecodeFramedIff(c, key);
    }
  }

  lemma DecodedIsIdentity(value: string, realm: Option<string>, category: string, key: string)
    requires DecodeStreamId(value) == Some((realm, category, key))
    ensures IsIdentity(value, realm, category, key)
  {
    var (a, rest) := SplitOnce(value, '|').value;
    var (b, c) := SplitOnce(rest, '|').value;
    SplitOnceMeans(value, '|');
    SplitOnceMeans(rest, '|');
    DecodeRealmIff(a, realm);
    DecodeFramedIff(b, category);
    DecodeFramedIff(c, key);
    assert SpelledBy(value, a, b, c);
  }

  /** No two identities share an encoding, and an absent realm differs from every present one. */
  lemma StreamIdInjective(r: Option<string>, c: string, k: string,
                          r': Option<string>, c': string, k': string)
    requires EncodeStreamId(r, c, k) == EncodeStreamId(r', c', k')
    ensures r == r' && c == c' && k == k'
  {
    var tail, tail' := "|" + (Framed(c) + ("|" + Framed(k))), "|" + (Framed(c') + ("|" + Framed(k')));
    RealmPartUnique(r, tail, r', tail');
    ConcatUnique("|", Framed(c) + ("|" + Framed(k)), "|", Framed(c') + ("|" + Framed(k')));
    FramedUnique(c, "|" + Framed(k), c', "|" + Framed(k'));
    ConcatUnique("|", Framed(k), "|", Framed(k'));
    ConcatUnique(Framed(k), "", Framed(k'), "");
    FramedUnique(k, "", k', "");
  }

  lemma RealmPartUnique(r: Option<string>, x: string, r': Option<string>, x': string)
    requires RealmPart(r) + x == RealmPart(r') + x'
    ensures r == r' && x == x'
  {
    assert (RealmPart(r) + x)[0] == RealmPart(r)[0];
    assert (RealmPart(r') + x')[0] == RealmPart(r')[0];
    match (r, r') {
      case (None, None) => ConcatUnique("0:", x, "0:", x');
      case (Some(s), Some(s')) =>
        Assoc("1:", Framed(s), x);
        Assoc("1:", Framed(s'), x');
        ConcatUnique("1:", Framed(s) + x, "1:", Framed(s') + x');
        FramedUnique(s, x, s', x');
      case _ =>
    }
  }

  /** What a caller can check beforehand: exactly these identities survive the round trip. */
  predicate Decodable(realm: Option<string>, category: string, key: string) {
    && (realm.Some? ==> realm.value != "" && '|' !in realm.value)
    && category != "" && '|' !in category
    && key != ""
  }

  /** Host strings are shorter than the address space. */
  predicate Fits(s: string) { |s| < U64_LIMIT }

  lemma DecodeFramedWhole(s: string)
    requires Fits(s)
    ensures DecodeFramed(Framed(s)) == if s == "" then None else Some(s)
  {
    SplitOnceConcat(Decimal(|s|), ':', s);
    ParseDecimal(|s|);
  }

  /** A framed text cut short by a stray delimiter never passes the length test. */
  lemma DecodeFramedCut(s: string, cut: string)
    requires Fits(s) && |cut| < |s|
    ensures DecodeFramed(Decimal(|s|) + ([':'] + cut)) == None
  {
    SplitOnceConcat(Decimal(|s|), ':', cut);
    ParseDecimal(|s|);
  }

  /** A framed part followed by `|` is cut off whole when clean, otherwise inside its text. */
  lemma CutFramed(s: string, rest: string) returns (head: string, tail: string)
    ensures '|' !in head && Framed(s) + ("|" + rest) == head + (['|'] + tail)
    ensures '|' !in s ==> head == Framed(s) && tail == rest
    ensures '|' in s ==> exists cut :: |cut| < |s| && head == Decimal(|s|) + ([':'] + cut)
  {
    DecimalFree(|s|, '|');
    var i := IndexOf(s, '|');
    if i < |s| {
      head, tail := Decimal(|s|) + ([':'] + s[..i]), s[i + 1..] + ("|" + rest);
      assert s == s[..i] + (['|'] + s[i + 1..]);
      CutInside(s, s[..i], s[i + 1..], rest);
    } else {
      assert s[..i] == s;
      head, tail := Framed(s), rest;
    }
  }

  lemma CutInside(s: string, cut: string, after: string, rest: string)
    requires s == cut + (['|'] + after)
    ensures Framed(s) + ("|" + rest) == (Decimal(|s|) + ([':'] + cut)) + (['|'] + (after + ("|" + rest)))
  {
    var tail := after + ("|" + rest);
    FramedThen(s, "|" + rest);
    Assoc(cut, ['|'] + after, "|" + rest);
    Assoc(['|'], after, "|" + rest);
    Assoc([':'], cut, ['|'] + tail);
    Assoc(Decimal(|s|), [':'] + cut, ['|'] + tail);
  }

  /** What `DecodeFramed` makes of a part that was cut off as above. */
  lemma DecodeCut(s: string, head: string)
    requires Fits(s)
    requires '|' !in s ==> head == Framed(s)
    requires '|' in s ==> exists cut :: |cut| < |s| && head == Decimal(|s|) + ([':'] + cut)
    ensures DecodeFramed(head) == if s == "" || '|' in s then None else Some(s)
  {
    if '|' in s {
      var cut :| |cut| < |s| && head == Decimal(|s|) + ([':'] + cut);
      DecodeFramedCut(s, cut);
    } else {
      DecodeFramedWhole(s);
    }
  }

  /** The realm part read back from an identity. */
  lemma DecodeRealmOfEncode(realm: Option<string>, rest: string) returns (head: string, tail: string)
    requires realm.Some? ==> Fits(realm.value)
    ensures SplitOnce(RealmPart(realm) + ("|" + rest), '|') == Some((head, tail))
    ensures realm.None? ==> DecodeRealm(head) == Some(None) && tail == rest
    ensures realm.Some? ==>
      if realm.value == "" || '|' in realm.value then DecodeRealm(head) == None
      else DecodeRealm(head) == Some(realm) && tail == rest
  {
    match realm
    case None =>
      head, tail := "0:", rest;
      SplitOnceConcat(head, '|', tail);
    case Some(r) =>
      var inner;
      inner, tail := CutFramed(r, rest);
      head := "1:" + inner;
      Assoc("1:", Framed(r), "|" + rest);
      Assoc("1:", inner, ['|'] + tail);
      SplitOnceConcat(head, '|', tail);
      assert StripPrefix(head, "1:") == Some(inner);
      assert head[0] == '1';
      DecodeCut(r, inner);
  }

  /** Decoding an encoding gives the original back exactly for the decodable identities. */
  lemma DecodeOfEncode(realm: Option<string>, category: string, key: string)
    requires realm.Some? ==> Fits(realm.value)
    requires Fits(category) && Fits(key)
    ensures DecodeStreamId(EncodeStreamId(realm, category, key))
         == if Decodable(realm, category, key) then Some((realm, category, key)) else None
  {
    var rest := Framed(category) + ("|" + Framed(key));
    var head, tail := DecodeRealmOfEncode(realm, rest);
    var catHead, catTail := CutFramed(category, Framed(key));
    SplitOnceConcat(catHead, '|', catTail);
    DecodeCut(category, catHead);
    DecodeFramedWhole(key);
  }

  // ---- authenticated partitions ----

  function ScopeRealm(realm: Option<string>): string {
    match realm
    case None => "0"
    case Some(r) => "1|" + Framed(r)
  }

  const SCOPE_HEAD := "sdk-er-partition/1|"

  function LogicalScope(service: string, tenant: string, realm: Option<string>): string {
    SCOPE_HEAD + (Framed(service) + ("|" + (Framed(tenant) + ("|" + ScopeRealm(realm)))))
  }

  lemma LogicalScopeInjective(s: string, t: string, r: Option<string>, s': string, t': string, r': Option<string>)
    requires LogicalScope(s, t, r) == LogicalScope(s', t', r')
    ensures s == s' && t == t' && r == r'
  {
    var x, x' := "|" + (Framed(t) + ("|" + ScopeRealm(r))), "|" + (Framed(t') + ("|" + ScopeRealm(r')));
    ConcatUnique(SCOPE_HEAD, Framed(s) + x, SCOPE_HEAD, Framed(s') + x');
    FramedUnique(s, x, s', x');
    ConcatUnique("|", Framed(t) + ("|" + ScopeRealm(r)), "|", Framed(t') + ("|" + ScopeRealm(r')));
    FramedUnique(t, "|" + ScopeRealm(r), t', "|" + ScopeRealm(r'));
    ConcatUnique("|", ScopeRealm(r), "|", ScopeRealm(r'));
    ScopeRealmUnique(r, r');
  }

  lemma ScopeRealmUnique(r: Option<string>, r': Option<string>)
    requires ScopeRealm(r) == ScopeRealm(r')
    ensures r == r'
  {
    assert ScopeRealm(r)[0] == ScopeRealm(r')[0];
    if r.Some? && r'.Some? {
      ConcatUnique("1|", Framed(r.value), "1|", Framed(r'.value));
      assert Framed(r.value) + "" == Framed(r'.value) + "";
      FramedUnique(r.value, "", r'.value, "");
    }
  }

  // ---- cursors ----

  const EVENT_CURSOR := "service-event-cursor/1:"

  function EncodeEventCursor(identity: string, position: nat): string {
    EVENT_CURSOR + (identity + (":" + Decimal(position)))
  }

  function DecodeEventCursor(cursor: string, expected: string): Option<nat> {
    match StripPrefix(cursor, EVENT_CURSOR)
    case None => None
    case Some(encoded) =>
      match SplitOnce(encoded, ':')
      case None => None
      case Some((identity, position)) => if identity != expected then None else ParseU64(position)
  }

  /** A cursor decodes to its own position, and only under the identity it was made for. */
  lemma EventCursorRoundTrip(identity: string, position: nat, expected: string)
    requires ':' !in identity && position < U64_LIMIT
    ensures DecodeEventCursor(EncodeEventCursor(identity, position), expected)
         == if expected == identity then Some(position) else None
  {
    var cursor := EncodeEventCursor(identity, position);
    assert StripPrefix(cursor, EVENT_CURSOR) == Some(identity + (":" + Decimal(position)));
    SplitOnceConcat(identity, ':', Decimal(position));
    ParseDecimal(position);
  }

  /** A text made of the prefix, an identity and digits. */
  predicate IsEventCursor(cursor: string, identity: string, digits: string) {
    cursor == EVENT_CURSOR + (identity + (":" + digits))
  }

  lemma EventCursorParts(cursor: string, identity: string, digits: string)
    requires IsEventCursor(cursor, identity, digits) && ':' !in identity
    ensures DecodeEventCursor(cursor, identity) == ParseU64(digits)
  {
    assert StripPrefix(cursor, EVENT_CURSOR) == Some(identity + (":" + digits));
    SplitOnceConcat(identity, ':', digits);
  }

  lemma EventCursorSplit(cursor: string, expected: string) returns (digits: string)
    requires DecodeEventCursor(cursor, expected).Some?
    ensures IsEventCursor(cursor, expected, digits) && ParseU64(digits) == DecodeEventCursor(cursor, expected)
  {
    var encoded := StripPrefix(cursor, EVENT_CURSOR).value;
    digits := SplitOnce(encoded, ':').value.1;
    StripPrefixMeans(cursor, EVENT_CURSOR);
    SplitOnceMeans(encoded, ':');
  }

  /** A cursor is accepted exactly as the prefix, the expected identity, and a number. */
  lemma EventCursorAcceptedIff(cursor: string, expected: string, position: nat)
    requires ':' !in expected
    ensures DecodeEventCursor(cursor, expected) == Some(position) <==>
      exists digits :: IsEventCursor(cursor, expected, digits) && ParseU64(digits) == Some(position)
  {
    if DecodeEventCursor(cursor, expected).Some? {
      var digits := EventCursorSplit(cursor, expected);
    }
    if digits :| IsEventCursor(cursor, expected, digits) && ParseU64(digits) == Some(position) {
      EventCursorParts(cursor, expected, digits);
    }
  }

  const QUERY_CURSOR := "sdk-query-v4:"

  function EncodeQueryCursor(offset: nat): string { QUERY_CURSOR + Decimal(offset) }

  function DecodeQueryCursor(cursor: Option<string>, rowCount: nat): Option<nat> {
    match cursor
    case None => Some(0)
    case Some(text) =>
      match StripPrefix(text, QUERY_CURSOR)
      case None => None
      case Some(digits) =>
        var offset := ParseU64(digits);
        if offset.Some? && offset.value <= rowCount then offset else None
  }

  /** No cursor starts at zero; a cursor is accepted exactly as the prefix and a number within the rows. */
  lemma QueryCursorAcceptedIff(cursor: Option<string>, rowCount: nat, offset: nat)
    ensures DecodeQueryCursor(cursor, rowCount) == Some(offset) <==>
      if cursor.None? then offset == 0
      else offset <= rowCount
           && exists digits :: cursor.value == QUERY_CURSOR + digits && ParseU64(digits) == Some(offset)
  {
    if cursor.Some? {
      if digits :| cursor.value == QUERY_CURSOR + digits && ParseU64(digits) == Some(offset) {
        assert StripPrefix(cursor.value, QUERY_CURSOR) == Some(digits);
      }
      if DecodeQueryCursor(cursor, rowCount) == Some(offset) {
        assert cursor.value == QUERY_CURSOR + StripPrefix(cursor.value, QUERY_CURSOR).value;
      }
    }
  }

  lemma QueryCursorRoundTrip(offset: nat, rowCount: nat)
    requires rowCount < U64_LIMIT
    ensures DecodeQueryCursor(Some(EncodeQueryCursor(offset)), rowCount)
         == if offset <= rowCount then Some(offset) else None
  {
    assert StripPrefix(EncodeQueryCursor(offset), QUERY_CURSOR) == Some(Decimal(offset));
    ParseDecimal(offset);
  }

  // ---- feed identities: eight-byte length frames before hashing ----

  function BigEndian(n: nat, width: nat): (s: string)
    ensures |s| == width
  {
    if width == 0 then "" else BigEndian(n / 256, width - 1) + [(n % 256) as char]
  }

  lemma {:induction false} BigEndianInjective(m: nat, n: nat, width: nat)
    requires BigEndian(m, width) == BigEndian(n, width)
    requires m < Power256(width) && n < Power256(width)
    ensures m == n
  {
    if width > 0 {
      ConcatUnique(BigEndian(m / 256, width - 1), [(m % 256) as char],
                   BigEndian(n / 256, width - 1), [(n % 256) as char]);
      assert [(m % 256) as char][0] == [(n % 256) as char][0];
      BigEndianInjective(m / 256, n / 256, width - 1);
    }
  }

  function Power256(width: nat): nat { if width == 0 then 1 else 256 * Power256(width - 1) }

  function Frame(value: string): string { BigEndian(|value|, 8) + value }

  function FrameAll(values: seq<string>): string {
    if values == [] then "" else Frame(values[0]) + FrameAll(values[1..])
  }

  /** Hash inputs made of length frames tell apart any two lists. */
  lemma {:induction false} FramesInjective(a: seq<string>, b: seq<string>)
    requires FrameAll(a) == FrameAll(b)
    requires (forall v :: v in a ==> Fits(v)) && (forall v :: v in b ==> Fits(v))
    ensures a == b
  {
    if a != [] {
      FrameUnique(a[0], FrameAll(a[1..]), b[0], FrameAll(b[1..]));
      FramesInjective(a[1..], b[1..]);
    }
  }

  lemma FrameUnique(a: string, x: string, b: string, y: string)
    requires Fits(a) && Fits(b) && Frame(a) + x == Frame(b) + y
    ensures a == b && x == y
  {
    Assoc(BigEndian(|a|, 8), a, x);
    Assoc(BigEndian(|b|, 8), b, y);
    ConcatUnique(BigEndian(|a|, 8), a + x, BigEndian(|b|, 8), b + y);
    EightBytes();
    BigEndianInjective(|a|, |b|, 8);
    ConcatUnique(a, x, b, y);
  }

  lemma EightBytes()
    ensures Power256(8) == U64_LIMIT
  {
    assert Power256(4) == 256 * (256 * Power256(2)) == 0x1_0000_0000;
    assert Power256(6) == 256 * (256 * Power256(4));
  }

  // ---- digests and projection row keys ----

  /** SHA-256 in hexadecimal, idealised: no collision and no separator in the text. */
  ghost predicate IsDigest(h: string -> string) {
    && (forall a, b :: h(a) == h(b) ==> a == b)
    && (forall a :: forall i :: 0 <= i < |h(a)| ==> LowerHex(h(a)[i]))
  }

  predicate LowerHex(c: char) { '0' <= c <= '9' || 'a' <= c <= 'f' }

  predicate AllLowerHex(s: string) { forall i :: 0 <= i < |s| ==> LowerHex(s[i]) }

  /** Character codes in decimal, each closed by a letter: a digest in the sense above. */
  function Codes(s: string): (t: string)
    ensures AllLowerHex(t)
  {
    if s == "" then "" else Decimal(s[0] as nat) + (['a'] + Codes(s[1..]))
  }

  lemma {:induction false} CodesInjective(a: string, b: string)
    requires Codes(a) == Codes(b)
    ensures a == b
  {
    if a != "" && b != "" {
      SplitUnique(Decimal(a[0] as nat), Codes(a[1..]), Decimal(b[0] as nat), Codes(b[1..]), 'a');
      DecimalInjective(a[0] as nat, b[0] as nat);
      CodesInjective(a[1..], b[1..]);
      assert a == [a[0]] + a[1..] && b == [b[0]] + b[1..];
    }
  }

  /** The idealisation can be met. */
  lemma DigestExists()
    ensures IsDigest(Codes)
  {
    forall a, b | Codes(a) == Codes(b) ensures a == b { CodesInjective(a, b); }
  }

  function FeedIdentity(h: string -> string, store: string, tenant: string, kind: string, id: string): string {
    h(FrameAll(["service-event-feed/1", store, tenant, kind, id]))
  }

  lemma FeedIdentityInjective(h: string -> string, s: string, t: string, k: string, i: string,
                              s': string, t': string, k': string, i': string)
    requires IsDigest(h)
    requires Fits(s) && Fits(t) && Fits(k) && Fits(i) && Fits(s') && Fits(t') && Fits(k') && Fits(i')
    requires FeedIdentity(h, s, t, k, i) == FeedIdentity(h, s', t', k', i')
    ensures s == s' && t == t' && k == k' && i == i'
  {
    var a, b := ["service-event-feed/1", s, t, k, i], ["service-event-feed/1", s', t', k', i'];
    FramesInjective(a, b);
    assert a[1] == b[1] && a[2] == b[2] && a[3] == b[3] && a[4] == b[4];
  }

  function RealmOrEmpty(realm: Option<string>): string {
    match realm case None => "" case Some(r) => r
  }

  function RowPrefix(h: string -> string, service: string, realm: Option<string>, view: string): string {
    h(service) + ("/" + (h(RealmOrEmpty(realm)) + ("/" + (h(view) + "/"))))
  }

  function RowKey(h: string -> string, service: string, realm: Option<string>, view: string,
                  stream: string, entity: string): string {
    RowPrefix(h, service, realm, view) + (h(stream) + ("-" + h(entity)))
  }

  lemma HexFree(h: string -> string, a: string, c: char)
    requires IsDigest(h) && !LowerHex(c)
    ensures c !in h(a)
  {
  }

  lemma PrefixCoordinates(h: string -> string, s: string, r: Option<string>, v: string, x: string,
                          s': string, r': Option<string>, v': string, x': string)
    requires IsDigest(h)
    requires RowPrefix(h, s, r, v) + x == RowPrefix(h, s', r', v') + x'
    ensures s == s' && RealmOrEmpty(r) == RealmOrEmpty(r') && v == v' && x == x'
  {
    PrefixThen(h, s, r, v, x);
    PrefixThen(h, s', r', v', x');
    var b, b' := h(RealmOrEmpty(r)), h(RealmOrEmpty(r'));
    HexFree(h, s, '/'); HexFree(h, s', '/'); HexFree(h, v, '/'); HexFree(h, v', '/');
    HexFree(h, RealmOrEmpty(r), '/'); HexFree(h, RealmOrEmpty(r'), '/');
    SplitUnique(h(s), b + (['/'] + (h(v) + (['/'] + x))), h(s'), b' + (['/'] + (h(v') + (['/'] + x'))), '/');
    SplitUnique(b, h(v) + (['/'] + x), b', h(v') + (['/'] + x'), '/');
    SplitUnique(h(v), x, h(v'), x', '/');
  }

  lemma PrefixThen(h: string -> string, s: string, r: Option<string>, v: string, x: string)
    ensures RowPrefix(h, s, r, v) + x
         == h(s) + (['/'] + (h(RealmOrEmpty(r)) + (['/'] + (h(v) + (['/'] + x)))))
  {
    var b := h(RealmOrEmpty(r));
    Assoc(h(v), "/", x);
    Assoc("/", h(v) + "/", x);
    Assoc(b, "/" + (h(v) + "/"), x);
    Assoc("/", b + ("/" + (h(v) + "/")), x);
    Assoc(h(s), "/" + (b + ("/" + (h(v) + "/"))), x);
  }

  /** A row key extends exactly the prefix of its own service, realm text and view. */
  lemma RowKeyPrefix(h: string -> string, s: string, r: Option<string>, v: string,
                     s': string, r': Option<string>, v': string, stream: string, entity: string)
    requires IsDigest(h)
    ensures RowPrefix(h, s, r, v) < RowKey(h, s', r', v', stream, entity)
       <==> s == s' && RealmOrEmpty(r) == RealmOrEmpty(r') && v == v'
  {
    var p, k := RowPrefix(h, s, r, v), RowKey(h, s', r', v', stream, entity);
    var x' := h(stream) + ("-" + h(entity));
    assert k == RowPrefix(h, s', r', v') + x';
    if p <= k {
      assert k == p + k[|p|..];
      PrefixCoordinates(h, s, r, v, k[|p|..], s', r', v', x');
    }
  }

  lemma RowKeyInjective(h: string -> string, s: string, r: Option<string>, v: string, st: string, e: string,
                        r': Option<string>, v': string, st': string, e': string)
    requires IsDigest(h)
    requires RowKey(h, s, r, v, st, e) == RowKey(h, s, r', v', st', e')
    ensures v == v' && st == st' && e == e'
  {
    var x, x' := h(st) + ("-" + h(e)), h(st') + ("-" + h(e'));
    assert RowKey(h, s, r, v, st, e) == RowPrefix(h, s, r, v) + x;
    assert RowKey(h, s, r', v', st', e') == RowPrefix(h, s, r', v') + x';
    PrefixCoordinates(h, s, r, v, x, s, r', v', x');
    HexFree(h, st, '-'); HexFree(h, st', '-');
    SplitUnique(h(st), h(e), h(st'), h(e'), '-');
  }

  // ---- repair tokens ----

  predicate IsBytes(s: string) { forall i :: 0 <= i < |s| ==> s[i] as int < 256 }

  function HexDigit(d: nat): (c: char)
    requires d < 16
    ensures LowerHex(c)
  {
    if d < 10 then '0' + d as char else 'a' + (d - 10) as char
  }

  function HexValue(c: char): (d: nat)
    requires LowerHex(c)
    ensures d < 16 && HexDigit(d) == c
  {
    if c <= '9' then (c - '0') as nat else (c - 'a') as nat + 10
  }

  function HexEncode(s: string): (t: string)
    requires IsBytes(s)
    ensures |t| == 2 * |s| && AllLowerHex(t)
  {
    if s == "" then "" else
      var b := s[0] as nat;
      [HexDigit(b / 16), HexDigit(b % 16)] + HexEncode(s[1..])
  }

  function HexDecode(t: string): (r: Option<string>)
    requires AllLowerHex(t)
    ensures r.Some? ==> IsBytes(r.value) && |t| == 2 * |r.value|
  {
    if t == "" then Some("")
    else if |t| == 1 then None
    else
      match HexDecode(t[2..])
      case None => None
      case Some(rest) =>
        Some([(16 * HexValue(t[0]) + HexValue(t[1])) as char] + rest)
  }

  /** Lower-case hexadecimal is canonical. */
  lemma {:induction false} HexEncodeDecode(t: string)
    requires AllLowerHex(t) && HexDecode(t).Some?
    ensures HexEncode(HexDecode(t).value) == t
  {
    if t != "" {
      HexEncodeDecode(t[2..]);
      HexPair(HexValue(t[0]), HexValue(t[1]), HexDecode(t[2..]).value);
      assert t == [t[0], t[1]] + t[2..];
    }
  }

  lemma HexPair(high: nat, low: nat, rest: string)
    requires high < 16 && low < 16 && IsBytes(rest)
    ensures HexEncode([(16 * high + low) as char] + rest) == [HexDigit(high), HexDigit(low)] + HexEncode(rest)
  {
    var s := [(16 * high + low) as char] + rest;
    assert s[0] as nat == 16 * high + low && s[1..] == rest;
  }

  lemma {:induction false} HexDecodeEncode(s: string)
    requires IsBytes(s)
    ensures HexDecode(HexEncode(s)) == Some(s)
  {
    if s != "" {
      var b, t := s[0] as nat, HexEncode(s);
      assert t[0] == HexDigit(b / 16) && t[1] == HexDigit(b % 16) && t[2..] == HexEncode(s[1..]);
      HexDecodeEncode(s[1..]);
      HexDigitInjective(HexValue(t[0]), b / 16);
      HexDigitInjective(HexValue(t[1]), b % 16);
      assert 16 * (b / 16) + b % 16 == b;
      assert s == [s[0]] + s[1..];
    }
  }

  lemma HexDigitInjective(d: nat, e: nat)
    requires d < 16 && e < 16 && HexDigit(d) == HexDigit(e)
    ensures d == e
  {
  }

  predicate Continuation(s: string, i: nat) { i < |s| && 0x80 <= s[i] as int < 0xC0 }

  /** Bytes taken by the well-formed UTF-8 sequence at the head (table 3-7 of Unicode), or zero. */
  function SequenceLength(s: string): (n: nat)
    requires s != ""
    ensures n <= |s|
  {
    var b := s[0] as int;
    var second := if |s| > 1 then s[1] as int else 0;
    if b < 0x80 then 1
    else if 0xC2 <= b < 0xE0 && Continuation(s, 1) then 2
    else if 0xE0 <= b < 0xF0 && Continuation(s, 1) && Continuation(s, 2)
      && (b == 0xE0 ==> 0xA0 <= second) && (b == 0xED ==> second < 0xA0) then 3
    else if 0xF0 <= b < 0xF5 && Continuation(s, 1) && Continuation(s, 2) && Continuation(s, 3)
      && (b == 0xF0 ==> 0x90 <= second) && (b == 0xF4 ==> second < 0x90) then 4
    else 0
  }

  predicate ValidUtf8(s: string)
    decreases |s|
  {
    s == "" || (var n := SequenceLength(s); n > 0 && ValidUtf8(s[n..]))
  }

  const REPAIR_HEAD := "sdk-er-repair-v1-"

  function RepairToken(operation: string, claim: string): string
    requires IsBytes(operation)
  {
    REPAIR_HEAD + (HexEncode(operation) + ("-" + claim))
  }

  function RepairCoordinates(token: string): (r: Option<(string, string)>)
    ensures r.Some? ==> IsBytes(r.value.0)
  {
    match StripPrefix(token, REPAIR_HEAD)
    case None => None
    case Some(encoded) =>
      match SplitOnce(encoded, '-')
      case None => None
      case Some((operation, claim)) =>
        if operation == "" || |claim| != 64 || !AllLowerHex(operation) || !AllLowerHex(claim) then None
        else
          match HexDecode(operation)
          case None => None
          case Some(bytes) =>
            if !ValidUtf8(bytes) || bytes == "" then None else Some((bytes, claim))
  }

  /** Exactly the tokens of a non-empty operation and a 64-digit claim are read back. */
  lemma RepairRoundTrip(operation: string, claim: string)
    requires IsBytes(operation) && ValidUtf8(operation)
    ensures RepairCoordinates(RepairToken(operation, claim))
         == if operation != "" && |claim| == 64 && AllLowerHex(claim) then Some((operation, claim)) else None
  {
    var encoded := HexEncode(operation) + (['-'] + claim);
    assert StripPrefix(RepairToken(operation, claim), REPAIR_HEAD) == Some(encoded);
    SplitOnceConcat(HexEncode(operation), '-', claim);
    HexDecodeEncode(operation);
  }

  /** Tokens are canonical: whatever is accepted is the one token of the coordinates it yields. */
  lemma RepairTokenCanonical(token: string)
    requires RepairCoordinates(token).Some?
    ensures var (operation, claim) := RepairCoordinates(token).value; token == RepairToken(operation, claim)
  {
    var encoded := StripPrefix(token, REPAIR_HEAD).value;
    var (operation, claim) := SplitOnce(encoded, '-').value;
    assert encoded == operation + (['-'] + claim);
    assert token == REPAIR_HEAD + encoded;
    HexEncodeDecode(operation);
  }
}
