/**
 * The stored form of creature conditions (src/condition.cpp): the attribute fields each kind of condition writes, and
 * the reader that rebuilds the condition from them.
 */
module ConditionFormat {
  import opened Bytes
  import opened Options
  import opened PropStreams
  import opened WordArithmetic

  // ConditionAttr_t
  const TYPE: Byte := 1
  const ID: Byte := 2
  const TICKS: Byte := 3
  const HEALTHTICKS: Byte := 4
  const HEALTHGAIN: Byte := 5
  const MANATICKS: Byte := 6
  const MANAGAIN: Byte := 7
  const DELAYED: Byte := 8
  const OWNER: Byte := 9
  const INTERVALDATA: Byte := 10
  const SPEEDDELTA: Byte := 11
  const FORMULA_MINA: Byte := 12
  const FORMULA_MINB: Byte := 13
  const FORMULA_MAXA: Byte := 14
  const FORMULA_MAXB: Byte := 15
  const LIGHTCOLOR: Byte := 16
  const LIGHTLEVEL: Byte := 17
  const LIGHTTICKS: Byte := 18
  const LIGHTINTERVAL: Byte := 19
  const SOULTICKS: Byte := 20
  const SOULGAIN: Byte := 21
  const OUTFIT: Byte := 24
  const PERIODDAMAGE: Byte := 25
  const ISBUFF: Byte := 26
  const SUBID: Byte := 27
  const ISAGGRESSIVE: Byte := 28
  const HEALTHGAINPERCENT: Byte := 32
  const MANAGAINPERCENT: Byte := 33
  const CONSTANT: Byte := 34
  const ENDTIME: Byte := 35
  const TYPE64: Byte := 36
  const END: Byte := 254

  const INT64_MAX: Int64 := 0x7FFF_FFFF_FFFF_FFFF
  const MUTED: UInt64 := 0x1_0000  // CONDITION_MUTED

  datatype IntervalInfo = IntervalInfo(timeLeft: Int32, value: Int32, interval: Int32)

  /** Outfit_t */
  datatype Looks = Looks(lookType: UInt16, lookTypeEx: UInt16, lookMount: UInt16, lookFamiliar: UInt16,
                         lookHead: Byte, lookBody: Byte, lookLegs: Byte, lookFeet: Byte, lookAddons: Byte)

  const NoLooks := Looks(0, 0, 0, 0, 0, 0, 0, 0, 0)

  /** sizeof(Outfit_t), a byte of padding included. */
  const LOOKS_SIZE: nat := 14

  /** What the subclasses add; the formula variables of a speed condition are the memory images of floats. */
  datatype Extension =
    | Plain
    | Regeneration(healthTicks: UInt32, healthGain: UInt32, healthGainPercent: UInt32,
                   manaTicks: UInt32, manaGain: UInt32, manaGainPercent: UInt32)
    | Soul(soulGain: UInt32, soulTicks: UInt32)
    | Speed(speedDelta: Int32, mina: UInt32, minb: UInt32, maxa: UInt32, maxb: UInt32)
    | Damage(delayed: bool, periodDamage: Int32, damageList: seq<IntervalInfo>)
    | Light(color: Byte, level: Byte, lightTicks: UInt32, lightInterval: UInt32)
    | Outfit(outfit: Looks)

  datatype Condition = Condition(conditionType: UInt64, id: Int8, ticks: Int32, isBuff: bool, subId: UInt32,
                                 aggressive: bool, constant: bool, endTime: Int64, ext: Extension)

  // ---------------------------------------------------------------- the factory

  /** The k with n == 2^k. */
  function BitOf(n: nat): Option<nat> {
    if n == 1 then Some(0)
    else if n == 0 || n % 2 == 1 then None
    else
      var k :- BitOf(n / 2);
      Some(k + 1)
  }

  /** A new object of the class the factory picks for a type. */
  function BlankOf(conditionType: nat): Option<Extension> {
    var k :- BitOf(conditionType);
    if k in {0, 1, 2, 3, 15, 20, 21, 22, 31} then Some(Damage(false, 0, []))
    else if k in {4, 5} then Some(Speed(0, 0, 0, 0, 0))
    else if k == 6 then Some(Outfit(NoLooks))
    else if k == 8 then Some(Light(0, 0, 0, 0))
    else if k == 13 then Some(Regeneration(1000, 0, 0, 1000, 0, 0))
    else if k == 14 then Some(Soul(0, 0))
    else if k in {7, 9, 10, 11, 12, 16, 17, 18} || 23 <= k <= 30 || 32 <= k <= 35 then Some(Plain)
    else None
  }

  /** The class of the object fits its type. */
  predicate Modelled(c: Condition) {
    match BlankOf(c.conditionType)
    case None => false
    case Some(blank) =>
      match c.ext
      case Plain => blank.Plain?
      case Regeneration(_, _, _, _, _, _) => blank.Regeneration?
      case Soul(_, _) => blank.Soul?
      case Speed(_, _, _, _, _) => blank.Speed?
      case Damage(_, _, _) => blank.Damage?
      case Light(_, _, _, _) => blank.Light?
      case Outfit(_) => blank.Outfit?
  }

  // ---------------------------------------------------------------- writing

  datatype Field = Field(attr: Byte, body: seq<Byte>)

  function Image(fields: seq<Field>): seq<Byte> {
    if fields == [] then [] else [fields[0].attr] + fields[0].body + Image(fields[1..])
  }

  function Flag(b: bool): int {
    if b then 1 else 0
  }

  function TypeField(conditionType: UInt64): Field {
    if conditionType > 0xFFFF_FFFF then Field(TYPE64, Little(conditionType, 8))
    else Field(TYPE, Little(conditionType, 4))
  }

  /** Condition::serialize */
  function BaseFields(c: Condition): seq<Field> {
    [TypeField(c.conditionType), Field(ID, Little(c.id, 4)), Field(TICKS, Little(c.ticks, 4)),
     Field(ISBUFF, Little(Flag(c.isBuff), 1)), Field(SUBID, Little(c.subId, 4)),
     Field(ISAGGRESSIVE, Little(Flag(c.aggressive), 1)), Field(CONSTANT, Little(Flag(c.constant), 1))]
    + if c.constant then [Field(ENDTIME, Little(c.endTime, 8))] else []
  }

  function IntervalBytes(info: IntervalInfo): seq<Byte> {
    Little(info.timeLeft, 4) + Little(info.value, 4) + Little(info.interval, 4)
  }

  /** ConditionOutfit::serialize: every field but lookFamiliar, filled up with zeros to the size of Outfit_t. */
  function LooksBytes(l: Looks): (s: seq<Byte>)
    ensures |s| == LOOKS_SIZE
  {
    Little(l.lookType, 2) + Little(l.lookTypeEx, 2) + Little(l.lookMount, 2)
    + [l.lookHead, l.lookBody, l.lookLegs, l.lookFeet, l.lookAddons] + [0, 0, 0]
  }

  function IntervalFields(list: seq<IntervalInfo>): (fields: seq<Field>)
    ensures |fields| == |list|
  {
    if list == [] then [] else [Field(INTERVALDATA, IntervalBytes(list[0]))] + IntervalFields(list[1..])
  }

  /** What the serialize overrides write after the base fields. */
  function ExtraFields(ext: Extension): seq<Field> {
    match ext
    case Plain => []
    case Regeneration(healthTicks, healthGain, healthGainPercent, manaTicks, manaGain, manaGainPercent) =>
      [Field(HEALTHTICKS, Little(healthTicks, 4)), Field(HEALTHGAIN, Little(healthGain, 4)),
       Field(HEALTHGAINPERCENT, Little(healthGainPercent, 4)), Field(MANATICKS, Little(manaTicks, 4)),
       Field(MANAGAIN, Little(manaGain, 4)), Field(MANAGAINPERCENT, Little(manaGainPercent, 4))]
    case Soul(soulGain, soulTicks) =>
      [Field(SOULGAIN, Little(soulGain, 4)), Field(SOULTICKS, Little(soulTicks, 4))]
    case Speed(speedDelta, mina, minb, maxa, maxb) =>
      [Field(SPEEDDELTA, Little(speedDelta, 4)), Field(FORMULA_MINA, Little(mina, 4)),
       Field(FORMULA_MINB, Little(minb, 4)), Field(FORMULA_MAXA, Little(maxa, 4)), Field(FORMULA_MAXB, Little(maxb, 4))]
    case Damage(delayed, periodDamage, damageList) =>
      [Field(DELAYED, Little(Flag(delayed), 1)), Field(PERIODDAMAGE, Little(periodDamage, 4))]
      + IntervalFields(damageList)
    case Light(color, level, lightTicks, lightInterval) =>
      [Field(LIGHTCOLOR, Little(color, 4)), Field(LIGHTLEVEL, Little(level, 4)),
       Field(LIGHTTICKS, Little(lightTicks, 4)), Field(LIGHTINTERVAL, Little(lightInterval, 4))]
    case Outfit(outfit) => [Field(OUTFIT, LooksBytes(outfit))]
  }

  function Serialized(c: Condition): seq<Byte> {
    Image(BaseFields(c) + ExtraFields(c.ext))
  }

  /** The conditions a player save keeps. */
  predicate Kept(c: Condition) {
    c.constant || (c.ticks != -1 && (c.id == -1 || c.id == 0 || c.conditionType == MUTED))
  }

  /** The blob a player save writes: each condition that is kept, closed by END. */
  function Blob(conditions: seq<Condition>): seq<Byte> {
    if conditions == [] then []
    else if Kept(conditions[0]) then Serialized(conditions[0]) + [END] + Blob(conditions[1..])
    else Blob(conditions[1..])
  }

  // ---------------------------------------------------------------- reading

  /** An attribute byte followed by a value of the given width. */
  function Expect(s: seq<Byte>, attr: Byte, width: nat): Option<(seq<Byte>, seq<Byte>)> {
    if s == [] || s[0] != attr then None else Take(s[1..], width)
  }

  function TypeWidth(attr: Byte): Option<nat> {
    if attr == TYPE then Some(4) else if attr == TYPE64 then Some(8) else None
  }

  /** createCondition(PropStream&): the header in its fixed order. */
  function Create(s: seq<Byte>): (r: Option<(Condition, seq<Byte>)>)
    ensures r.Some? ==> |r.value.1| < |s|
  {
    var (numbers, s3) :- NumbersOf(s);
    var blank :- BlankOf(FromLittle(numbers.kind));
    var (flags, s7) :- FlagsOf(s3);
    FromLittleRoundTrip(numbers.kind);
    Ranges();
    var c := NewCondition(FromLittle(numbers.kind), AsInt8(FromLittle(numbers.id)), AsInt32(FromLittle(numbers.ticks)),
                          flags, blank);
    if !flags.constant then Some((c, s7)) else
      var (endTime, s8) :- Expect(s7, ENDTIME, 8);
      Some((c.(constant := true, endTime := AsInt64(FromLittle(endTime))), s8))
  }

  /** The stored bytes of type, id and ticks. */
  datatype Numbers = Numbers(kind: seq<Byte>, id: seq<Byte>, ticks: seq<Byte>)

  /** The first half of the header. */
  function NumbersOf(s: seq<Byte>): (r: Option<(Numbers, seq<Byte>)>)
    ensures r.Some? ==> |r.value.1| < |s| && |r.value.0.kind| <= 8
  {
    if s == [] then None else
      var width :- TypeWidth(s[0]);
      var (kind, s1) :- Take(s[1..], width);
      var (id, s2) :- Expect(s1, ID, 4);
      var (ticks, s3) :- Expect(s2, TICKS, 4);
      Some((Numbers(kind, id, ticks), s3))
  }

  datatype Flags = Flags(isBuff: bool, subId: UInt32, aggressive: bool, constant: bool)

  /** The second half of the header. */
  function FlagsOf(s: seq<Byte>): (r: Option<(Flags, seq<Byte>)>)
    ensures r.Some? ==> |r.value.1| < |s|
  {
    var (buff, s4) :- Expect(s, ISBUFF, 1);
    var (subId, s5) :- Expect(s4, SUBID, 4);
    var (aggressive, s6) :- Expect(s5, ISAGGRESSIVE, 1);
    var (constant, s7) :- Expect(s6, CONSTANT, 1);
    FromLittleRoundTrip(subId);
    Ranges();
    Some((Flags(FromLittle(buff) != 0, FromLittle(subId), FromLittle(aggressive) != 0, FromLittle(constant) != 0), s7))
  }

  /** The constructors: a damage condition ignores the ticks it is created with. */
  function NewCondition(conditionType: UInt64, id: Int8, ticks: Int32, flags: Flags, blank: Extension): Condition {
    var kept := if blank.Damage? then 0 else ticks;
    Condition(conditionType, id, kept, flags.isBuff, flags.subId, flags.aggressive, false,
              if kept == -1 then INT64_MAX else 0, blank)
  }

  /** Condition::setTicks at time now */
  function WithTicks(c: Condition, ticks: int, now: int): Condition {
    c.(ticks := AsInt32(ticks), endTime := AsInt64(AsInt32(ticks) + now))
  }

  /** An interval of damage taken into the list; its length is added to the ticks unless they are -1. */
  function WithInterval(c: Condition, info: IntervalInfo, now: int): Condition
    requires c.ext.Damage?
  {
    var longer := c.(ext := c.ext.(damageList := c.ext.damageList + [info]));
    if c.ticks == -1 then longer else WithTicks(longer, c.ticks + info.interval, now)
  }

  function IntervalOf(body: seq<Byte>): IntervalInfo
    requires |body| == 12
  {
    IntervalInfo(AsInt32(FromLittle(body[..4])), AsInt32(FromLittle(body[4..8])), AsInt32(FromLittle(body[8..])))
  }

  /** The outfit with a memory image. */
  function LooksOf(body: seq<Byte>): Looks
    requires |body| == LOOKS_SIZE
  {
    Looks(UInt16Of(body[..2]), UInt16Of(body[2..4]), UInt16Of(body[4..6]), UInt16Of(body[6..8]),
          body[8], body[9], body[10], body[11], body[12])
  }

  function UInt16Of(body: seq<Byte>): UInt16
    requires |body| == 2
  {
    FromLittleRoundTrip(body);
    Ranges();
    FromLittle(body)
  }

  /** The four-byte attributes of the subclasses. */
  predicate OwnWord(ext: Extension, attr: Byte) {
    match ext
    case Plain => false
    case Regeneration(_, _, _, _, _, _) =>
      attr in {HEALTHTICKS, HEALTHGAIN, HEALTHGAINPERCENT, MANATICKS, MANAGAIN, MANAGAINPERCENT}
    case Soul(_, _) => attr in {SOULGAIN, SOULTICKS}
    case Speed(_, _, _, _, _) => attr in {SPEEDDELTA, FORMULA_MINA, FORMULA_MINB, FORMULA_MAXA, FORMULA_MAXB}
    case Damage(_, _, _) => attr in {PERIODDAMAGE, OWNER}
    case Light(_, _, _, _) => attr in {LIGHTTICKS, LIGHTINTERVAL}
    case Outfit(_) => false
  }

  function WithWord(ext: Extension, attr: Byte, n: UInt32): Extension
    requires OwnWord(ext, attr)
  {
    if attr == HEALTHTICKS then ext.(healthTicks := n)
    else if attr == HEALTHGAIN then ext.(healthGain := n)
    else if attr == HEALTHGAINPERCENT then ext.(healthGainPercent := n)
    else if attr == MANATICKS then ext.(manaTicks := n)
    else if attr == MANAGAIN then ext.(manaGain := n)
    else if attr == MANAGAINPERCENT then ext.(manaGainPercent := n)
    else if attr == SOULGAIN then ext.(soulGain := n)
    else if attr == SOULTICKS then ext.(soulTicks := n)
    else if attr == SPEEDDELTA then ext.(speedDelta := AsInt32(n))
    else if attr == FORMULA_MINA then ext.(mina := n)
    else if attr == FORMULA_MINB then ext.(minb := n)
    else if attr == FORMULA_MAXA then ext.(maxa := n)
    else if attr == FORMULA_MAXB then ext.(maxb := n)
    else if attr == LIGHTTICKS then ext.(lightTicks := n)
    else if attr == LIGHTINTERVAL then ext.(lightInterval := n)
    else if attr == PERIODDAMAGE then ext.(periodDamage := AsInt32(n))
    else ext  // OWNER is skipped
  }

  /** The width of the value that follows an attribute, for an object of the class of ext. */
  function WidthOf(ext: Extension, attr: Byte): Option<nat> {
    if OwnWord(ext, attr) then Some(4)
    else if ext.Damage? && attr == DELAYED then Some(1)
    else if ext.Damage? && attr == INTERVALDATA then Some(12)
    else if ext.Light? && (attr == LIGHTCOLOR || attr == LIGHTLEVEL) then Some(1)
    else if ext.Outfit? && attr == OUTFIT then Some(LOOKS_SIZE)
    else if attr in {TYPE, ID, TICKS, SUBID} then Some(4)
    else if attr in {ISBUFF, ISAGGRESSIVE, CONSTANT} then Some(1)
    else if attr in {TYPE64, ENDTIME} then Some(8)
    else if attr == END then Some(0)
    else None
  }

  /** Condition::unserializeProp */
  function WithBase(c: Condition, attr: Byte, n: UInt64): Condition
    requires attr == SUBID ==> n < 0x1_0000_0000
  {
    if attr == TYPE || attr == TYPE64 then c.(conditionType := n)
    else if attr == ID then c.(id := AsInt8(n))
    else if attr == TICKS then c.(ticks := AsInt32(n))
    else if attr == ISBUFF then c.(isBuff := n != 0)
    else if attr == SUBID then c.(subId := n)
    else if attr == ISAGGRESSIVE then c.(aggressive := n != 0)
    else if attr == CONSTANT then c.(constant := n != 0)
    else if attr == ENDTIME then c.(endTime := AsInt64(n))
    else c  // END changes nothing
  }

  /** The unserializeProp overrides, once the value of the attribute has been read at time now. */
  function WithProp(c: Condition, attr: Byte, body: seq<Byte>, now: int): Condition
    requires WidthOf(c.ext, attr) == Some(|body|)
  {
    FromLittleRoundTrip(body);
    Ranges();
    var n := FromLittle(body);
    if OwnWord(c.ext, attr) then c.(ext := WithWord(c.ext, attr, n))
    else if attr == DELAYED then c.(ext := c.ext.(delayed := n != 0))
    else if attr == INTERVALDATA then WithInterval(c, IntervalOf(body), now)
    else if attr == LIGHTCOLOR then c.(ext := c.ext.(color := n))
    else if attr == LIGHTLEVEL then c.(ext := c.ext.(level := n))
    else if attr == OUTFIT then c.(ext := Outfit(LooksOf(body)))
    else
      WithBase(c, attr, n)
  }

  /** unserializeProp; the clock is given by the number of bytes still unread. */
  function UnserializeProp(c: Condition, attr: Byte, s: seq<Byte>, clock: nat -> int): Option<(Condition, seq<Byte>)> {
    var width :- WidthOf(c.ext, attr);
    var (body, rest) :- Take(s, width);
    Some((WithProp(c, attr, body, clock(|rest|)), rest))
  }

  /** Condition::unserialize: whether it succeeded, the condition and the unread bytes. */
  function Unserialize(c: Condition, s: seq<Byte>, clock: nat -> int): (r: (bool, Condition, seq<Byte>))
    ensures |r.2| <= |s|
    decreases |s|
  {
    if s == [] then (true, c, s)
    else if s[0] == END then (true, c, s[1..])
    else
      match UnserializeProp(c, s[0], s[1..], clock)
      case None => (false, c, s[1..])
      case Some((d, rest)) => Unserialize(d, rest, clock)
  }

  /** The loading loop of a player: conditions are pushed to the front, one that fails to unserialize is dropped. */
  function Load(s: seq<Byte>, clock: nat -> int): seq<Condition>
    decreases |s|
  {
    match Create(s)
    case None => []
    case Some((c, rest)) =>
      var (ok, d, unread) := Unserialize(c, rest, clock);
      Load(unread, clock) + if ok then [d] else []
  }
}
