/** What a stored list of conditions is when it is loaded again (src/condition.cpp, src/iologindata.cpp). */
module ConditionRoundTrip {
  import opened Bytes
  import opened Options
  import opened PropStreams
  import opened ConditionFormat
  import opened WordArithmetic

  // ---------------------------------------------------------------- fields

  lemma {:induction false} ImageAppend(a: seq<Field>, b: seq<Field>)
    ensures Image(a + b) == Image(a) + Image(b)
  {
    hide *;
    if a == [] {
      NoImage();
      assert a + b == b && [] + Image(b) == Image(b);
    } else {
      ImageAppend(a[1..], b);
      assert (a + b)[0] == a[0] && (a + b)[1..] == a[1..] + b;
      ImageUnfolds(a);
      ImageUnfolds(a + b);
      Grouped([a[0].attr] + a[0].body, Image(a[1..]), Image(b));
    }
  }

  lemma ImageUnfolds(fields: seq<Field>)
    requires fields != []
    ensures Image(fields) == [fields[0].attr] + fields[0].body + Image(fields[1..])
  {
  }

  lemma Regroup(attr: Byte, body: seq<Byte>, image: seq<Byte>, rest: seq<Byte>)
    ensures var s := [attr] + body + image + rest;
            s[0] == attr && s[1..] == body + (image + rest)
  {
  }

  lemma Grouped(a: seq<Byte>, b: seq<Byte>, c: seq<Byte>)
    ensures a + b + c == a + (b + c)
  {
  }

  /** The bytes of a field list start with the first field; its value and the bytes after it can be told apart. */
  lemma HeadField(fields: seq<Field>, rest: seq<Byte>)
    requires fields != []
    ensures var s, f := Image(fields) + rest, fields[0];
            && s != [] && s[0] == f.attr
            && Take(s[1..], |f.body|) == Some((f.body, Image(fields[1..]) + rest))
  {
    hide *;
    var f := fields[0];
    ImageUnfolds(fields);
    Regroup(f.attr, f.body, Image(fields[1..]), rest);
    TakeAppended(f.body, Image(fields[1..]) + rest);
  }

  lemma ExpectHead(fields: seq<Field>, rest: seq<Byte>)
    requires fields != []
    ensures Expect(Image(fields) + rest, fields[0].attr, |fields[0].body|) ==
            Some((fields[0].body, Image(fields[1..]) + rest))
  {
    HeadField(fields, rest);
  }

  lemma FlagRoundTrip(b: bool)
    ensures FromLittle(Little(Flag(b), 1)) == Flag(b)
  {
    Ranges();
    UnsignedRoundTrip(Flag(b), 1);
  }

  lemma WordRoundTrip(n: UInt32)
    ensures FromLittle(Little(n, 4)) == n
  {
    Ranges();
    UnsignedRoundTrip(n, 4);
  }

  lemma IntRoundTrip(n: Int32)
    ensures AsInt32(FromLittle(Little(n, 4))) == n
  {
    Ranges();
    AsInt32IsSigned(FromLittle(Little(n, 4)));
    SignedRoundTrip(n, 4);
  }

  /** A condition id is stored sign-extended to 32 bits and read back from its lowest byte. */
  lemma IdRoundTrip(id: Int8)
    ensures AsInt8(FromLittle(Little(id, 4))) == id
  {
    Ranges();
    LittleRoundTrip(id, 4);
  }

  lemma TypeRoundTrip(n: UInt64)
    ensures var f := TypeField(n); TypeWidth(f.attr) == Some(|f.body|) && FromLittle(f.body) == n
  {
    Ranges();
    UnsignedRoundTrip(n, |TypeField(n).body|);
  }

  // ---------------------------------------------------------------- the header

  /** A condition of the given kind as the reader holds it after the header. */
  function AfterHeader(c: Condition): Condition
    requires Modelled(c)
  {
    var d := NewCondition(c.conditionType, c.id, c.ticks, Flags(c.isBuff, c.subId, c.aggressive, c.constant),
                          BlankOf(c.conditionType).value);
    if c.constant then d.(constant := true, endTime := c.endTime) else d
  }

  /** The seven fields of every header, then the end time of a constant condition. */
  lemma HeaderValues(c: Condition)
    ensures AsInt8(FromLittle(Little(c.id, 4))) == c.id && AsInt32(FromLittle(Little(c.ticks, 4))) == c.ticks
    ensures FromLittle(Little(c.subId, 4)) == c.subId
    ensures FromLittle(Little(Flag(c.isBuff), 1)) == Flag(c.isBuff)
    ensures FromLittle(Little(Flag(c.aggressive), 1)) == Flag(c.aggressive)
    ensures FromLittle(Little(Flag(c.constant), 1)) == Flag(c.constant)
    ensures AsInt64(FromLittle(Little(c.endTime, 8))) == c.endTime
  {
    IdRoundTrip(c.id);
    IntRoundTrip(c.ticks);
    WordRoundTrip(c.subId);
    FlagRoundTrip(c.isBuff);
    FlagRoundTrip(c.aggressive);
    FlagRoundTrip(c.constant);
    Ranges();
    SignedRoundTrip(c.endTime, 8);
  }

  /** createCondition on a header whose parts have been told apart; s[i] is unread after i parts. */
  lemma CreateFromParts(c: Condition, parts: seq<seq<Byte>>, s: seq<seq<Byte>>, attr: Byte)
    requires Modelled(c) && |parts| == 8 && |s| == 9 && s[0] != [] && s[0][0] == attr
    requires TypeWidth(attr).Some? && Take(s[0][1..], TypeWidth(attr).value) == Some((parts[0], s[1]))
    requires FromLittle(parts[0]) == c.conditionType
    requires Expect(s[1], ID, 4) == Some((parts[1], s[2])) && AsInt8(FromLittle(parts[1])) == c.id
    requires Expect(s[2], TICKS, 4) == Some((parts[2], s[3])) && AsInt32(FromLittle(parts[2])) == c.ticks
    requires Expect(s[3], ISBUFF, 1) == Some((parts[3], s[4])) && FromLittle(parts[3]) == Flag(c.isBuff)
    requires Expect(s[4], SUBID, 4) == Some((parts[4], s[5])) && FromLittle(parts[4]) == c.subId
    requires Expect(s[5], ISAGGRESSIVE, 1) == Some((parts[5], s[6])) && FromLittle(parts[5]) == Flag(c.aggressive)
    requires Expect(s[6], CONSTANT, 1) == Some((parts[6], s[7])) && FromLittle(parts[6]) == Flag(c.constant)
    requires c.constant ==>
               Expect(s[7], ENDTIME, 8) == Some((parts[7], s[8])) && AsInt64(FromLittle(parts[7])) == c.endTime
    ensures Create(s[0]) == Some((AfterHeader(c), s[if c.constant then 8 else 7]))
  {
  }

  lemma HeaderFields(c: Condition)
    ensures var fields := BaseFields(c) + ExtraFields(c.ext);
            && |fields| >= 7 && fields[0] == TypeField(c.conditionType)
            && fields[1] == Field(ID, Little(c.id, 4)) && fields[2] == Field(TICKS, Little(c.ticks, 4))
            && fields[3] == Field(ISBUFF, Little(Flag(c.isBuff), 1)) && fields[4] == Field(SUBID, Little(c.subId, 4))
            && fields[5] == Field(ISAGGRESSIVE, Little(Flag(c.aggressive), 1))
            && fields[6] == Field(CONSTANT, Little(Flag(c.constant), 1))
            && (if c.constant then
                  && |fields| >= 8 && fields[7] == Field(ENDTIME, Little(c.endTime, 8))
                  && fields[8..] == ExtraFields(c.ext)
                else fields[7..] == ExtraFields(c.ext))
  {
    hide *;
    BaseFieldsInOrder(c);
    assert (BaseFields(c) + ExtraFields(c.ext))[|BaseFields(c)|..] == ExtraFields(c.ext);
  }

  lemma BaseFieldsInOrder(c: Condition)
    ensures var fields := BaseFields(c);
            && |fields| == (if c.constant then 8 else 7) && fields[0] == TypeField(c.conditionType)
            && fields[1] == Field(ID, Little(c.id, 4)) && fields[2] == Field(TICKS, Little(c.ticks, 4))
            && fields[3] == Field(ISBUFF, Little(Flag(c.isBuff), 1)) && fields[4] == Field(SUBID, Little(c.subId, 4))
            && fields[5] == Field(ISAGGRESSIVE, Little(Flag(c.aggressive), 1))
            && fields[6] == Field(CONSTANT, Little(Flag(c.constant), 1))
            && (c.constant ==> fields[7] == Field(ENDTIME, Little(c.endTime, 8)))
  {
  }

  lemma CreateReadsHeader(c: Condition, rest: seq<Byte>)
    requires Modelled(c)
    ensures Create(Serialized(c) + rest) == Some((AfterHeader(c), Image(ExtraFields(c.ext)) + rest))
  {
    hide *;
    var fields := BaseFields(c) + ExtraFields(c.ext);
    SerializedIs(c);
    TypeRoundTrip(c.conditionType);
    HeaderValues(c);
    HeaderFields(c);
    var n := if c.constant then 8 else 7;
    var parts := seq(8, i requires 0 <= i < 8 => if i < n then fields[i].body else []);
    var s := seq(9, i requires 0 <= i < 9 => if i <= n then Image(fields[i..]) + rest else []);
    assert fields[0..] == fields;
    forall i | 0 <= i < n
      ensures s[i] != [] && s[i][0] == fields[i].attr && Take(s[i][1..], |fields[i].body|) == Some((parts[i], s[i + 1]))
      ensures Expect(s[i], fields[i].attr, |fields[i].body|) == Some((parts[i], s[i + 1]))
    {
      assert fields[i..][1..] == fields[i + 1..] && fields[i..][0] == fields[i];
      HeadField(fields[i..], rest);
      ExpectHead(fields[i..], rest);
    }
    CreateFromParts(c, parts, s, fields[0].attr);
  }

  lemma SerializedIs(c: Condition)
    ensures Serialized(c) == Image(BaseFields(c) + ExtraFields(c.ext))
  {
  }

  /** An attribute byte at place k, followed by a value of the given width. */
  predicate FieldAt(s: seq<Byte>, k: nat, attr: Byte, width: nat) {
    k + 1 + width <= |s| && s[k] == attr
  }

  /** The width of the type at the start of a header, 0 if there is none. */
  function TypeSize(s: seq<Byte>): nat {
    if FieldAt(s, 0, TYPE, 4) then 4 else if FieldAt(s, 0, TYPE64, 8) then 8 else 0
  }

  /** The bytes start with a header: every field in its place, for a type that objects can be created of. */
  predicate Headed(s: seq<Byte>) {
    var w := TypeSize(s);
    && w > 0 && BlankOf(FromLittle(s[1..1 + w])).Some?
    && FieldAt(s, w + 1, ID, 4) && FieldAt(s, w + 6, TICKS, 4) && FieldAt(s, w + 11, ISBUFF, 1)
    && FieldAt(s, w + 13, SUBID, 4) && FieldAt(s, w + 18, ISAGGRESSIVE, 1) && FieldAt(s, w + 20, CONSTANT, 1)
    && (s[w + 21] != 0 ==> FieldAt(s, w + 22, ENDTIME, 8))
  }

  lemma ExpectAt(s: seq<Byte>, k: nat, attr: Byte, width: nat)
    requires k <= |s|
    ensures Expect(s[k..], attr, width) ==
            if FieldAt(s, k, attr, width) then Some((s[k + 1..k + 1 + width], s[k + 1 + width..])) else None
  {
    if k + 1 + width <= |s| {
      assert s[k..][1..][..width] == s[k + 1..k + 1 + width];
      assert s[k..][1..][width..] == s[k + 1 + width..];
    }
  }

  /** A condition is created exactly from bytes that start with a header, and exactly the header is read. */
  lemma CreatedIffHeaded(s: seq<Byte>)
    ensures Create(s).Some? <==> Headed(s)
    ensures Create(s).Some? ==> Create(s).value.1 == s[TypeSize(s) + if s[TypeSize(s) + 21] != 0 then 31 else 22..]
  {
    hide *;
    HeadedIs(s);
    TypeTaken(s);
    var w := TypeSize(s);
    if w > 0 {
      FlagsAt(s, w + 11);
      ExpectAt(s, w + 1, ID, 4);
      if w + 6 <= |s| {
        ExpectAt(s, w + 6, TICKS, 4);
      }
      if w + 22 <= |s| {
        ExpectAt(s, w + 22, ENDTIME, 8);
      }
      CreateUnfolds(s, w);
    }
  }

  lemma HeadedIs(s: seq<Byte>)
    ensures var w := TypeSize(s);
            Headed(s) <==>
              && w > 0 && BlankOf(FromLittle(s[1..1 + w])).Some?
              && FieldAt(s, w + 1, ID, 4) && FieldAt(s, w + 6, TICKS, 4) && FieldAt(s, w + 11, ISBUFF, 1)
              && FieldAt(s, w + 13, SUBID, 4) && FieldAt(s, w + 18, ISAGGRESSIVE, 1) && FieldAt(s, w + 20, CONSTANT, 1)
              && (s[w + 21] != 0 ==> FieldAt(s, w + 22, ENDTIME, 8))
    ensures forall k: nat, attr: Byte, width: nat | FieldAt(s, k, attr, width) :: k + 1 + width <= |s|
  {
  }

  lemma TypeTaken(s: seq<Byte>)
    ensures TypeSize(s) == 0 ==> Create(s).None?
    ensures TypeSize(s) > 0 ==>
              && 1 + TypeSize(s) <= |s| && TypeWidth(s[0]) == Some(TypeSize(s))
              && Take(s[1..], TypeSize(s)) == Some((s[1..1 + TypeSize(s)], s[1 + TypeSize(s)..]))
  {
    if TypeSize(s) > 0 {
      assert s[1..][..TypeSize(s)] == s[1..1 + TypeSize(s)] && s[1..][TypeSize(s)..] == s[1 + TypeSize(s)..];
    }
  }

  lemma FlagsAt(s: seq<Byte>, k: nat)
    ensures k <= |s| ==>
              (FlagsOf(s[k..]).Some? <==>
                 && FieldAt(s, k, ISBUFF, 1) && FieldAt(s, k + 2, SUBID, 4) && FieldAt(s, k + 7, ISAGGRESSIVE, 1)
                 && FieldAt(s, k + 9, CONSTANT, 1))
    ensures k <= |s| && FlagsOf(s[k..]).Some? ==>
              k + 11 <= |s| && FlagsOf(s[k..]).value.1 == s[k + 11..]
              && FlagsOf(s[k..]).value.0.constant == (s[k + 10] != 0)
  {
    if k <= |s| {
      ExpectAt(s, k, ISBUFF, 1);
      if k + 2 <= |s| {
        ExpectAt(s, k + 2, SUBID, 4);
      }
      if k + 7 <= |s| {
        ExpectAt(s, k + 7, ISAGGRESSIVE, 1);
      }
      if k + 9 <= |s| {
        ExpectAt(s, k + 9, CONSTANT, 1);
      }
      if k + 11 <= |s| {
        assert s[k + 10..k + 11] == [s[k + 10]];
        OneByte(s[k + 10]);
      }
    }
  }

  lemma OneByte(b: Byte)
    ensures FromLittle([b]) == b
  {
    assert [b][1..] == [];
  }

  lemma CreateUnfolds(s: seq<Byte>, w: nat)
    requires s != [] && TypeWidth(s[0]) == Some(w) && Take(s[1..], w).Some?
    ensures var (kind, s1) := Take(s[1..], w).value;
            var id := Expect(s1, ID, 4);
            var ticks := if id.Some? then Expect(id.value.1, TICKS, 4) else None;
            var known := BlankOf(FromLittle(kind)).Some? && ticks.Some? && FlagsOf(ticks.value.1).Some?;
            && (Create(s).Some? ==> known)
            && (known ==>
                  var (flags, s7) := FlagsOf(ticks.value.1).value;
                  if !flags.constant then Create(s).Some? && Create(s).value.1 == s7
                  else
                    && (Create(s).Some? <==> Expect(s7, ENDTIME, 8).Some?)
                    && (Create(s).Some? ==> Create(s).value.1 == Expect(s7, ENDTIME, 8).value.1))
  {
  }

  // ---------------------------------------------------------------- the other fields

  /** Reading the fields of a list one after the other; left is what remains unread after the list. */
  function WithFields(c: Condition, fields: seq<Field>, left: nat, clock: nat -> int): Option<Condition>
    decreases |fields|
  {
    if fields == [] then Some(c)
    else if fields[0].attr == END || WidthOf(c.ext, fields[0].attr) != Some(|fields[0].body|) then None
    else
      WithFields(WithProp(c, fields[0].attr, fields[0].body, clock(|Image(fields[1..])| + left)), fields[1..],
                 left, clock)
  }

  lemma WithFieldsUnfolds(c: Condition, fields: seq<Field>, left: nat, clock: nat -> int)
    ensures fields == [] ==> WithFields(c, fields, left, clock) == Some(c)
    ensures fields != [] && WithFields(c, fields, left, clock).Some? ==>
              && fields[0].attr != END && WidthOf(c.ext, fields[0].attr) == Some(|fields[0].body|)
              && WithFields(c, fields, left, clock) ==
                 WithFields(WithProp(c, fields[0].attr, fields[0].body, clock(|Image(fields[1..])| + left)),
                            fields[1..], left, clock)
  {
  }

  lemma UnserializeUnfolds(c: Condition, s: seq<Byte>, body: seq<Byte>, rest: seq<Byte>, clock: nat -> int)
    requires s != [] && s[0] != END && WidthOf(c.ext, s[0]) == Some(|body|)
    requires Take(s[1..], |body|) == Some((body, rest))
    ensures Unserialize(c, s, clock) == Unserialize(WithProp(c, s[0], body, clock(|rest|)), rest, clock)
  {
  }

  lemma {:induction false} UnserializeReadsFields(c: Condition, fields: seq<Field>, rest: seq<Byte>, clock: nat -> int)
    requires WithFields(c, fields, |rest|, clock).Some?
    ensures Unserialize(c, Image(fields) + rest, clock) ==
            Unserialize(WithFields(c, fields, |rest|, clock).value, rest, clock)
    decreases |fields|
  {
    hide *;
    WithFieldsUnfolds(c, fields, |rest|, clock);
    if fields == [] {
      NoImage();
      assert [] + rest == rest;
    } else {
      var s, f := Image(fields) + rest, fields[0];
      HeadField(fields, rest);
      UnserializeUnfolds(c, s, f.body, Image(fields[1..]) + rest, clock);
      UnserializeReadsFields(WithProp(c, f.attr, f.body, clock(|Image(fields[1..])| + |rest|)), fields[1..], rest,
                             clock);
    }
  }

  lemma NoImage()
    ensures Image([]) == []
  {
  }

  // ---------------------------------------------------------------- damage lists

  /** The damage list rebuilt one interval at a time; every interval takes 13 stored bytes. */
  function Refilled(c: Condition, list: seq<IntervalInfo>, left: nat, clock: nat -> int): (d: Condition)
    requires c.ext.Damage?
    ensures d.ext.Damage?
    decreases |list|
  {
    if list == [] then c
    else Refilled(WithInterval(c, list[0], clock(13 * (|list| - 1) + left)), list[1..], left, clock)
  }

  lemma IntervalRoundTrip(info: IntervalInfo)
    ensures |IntervalBytes(info)| == 12 && IntervalOf(IntervalBytes(info)) == info
  {
    var body := IntervalBytes(info);
    assert body[..4] == Little(info.timeLeft, 4);
    assert body[4..8] == Little(info.value, 4);
    assert body[8..] == Little(info.interval, 4);
    IntRoundTrip(info.timeLeft);
    IntRoundTrip(info.value);
    IntRoundTrip(info.interval);
  }

  lemma {:induction false} IntervalFieldsRead(c: Condition, list: seq<IntervalInfo>, left: nat, clock: nat -> int)
    requires c.ext.Damage?
    ensures |Image(IntervalFields(list))| == 13 * |list|
    ensures WithFields(c, IntervalFields(list), left, clock) == Some(Refilled(c, list, left, clock))
    decreases |list|
  {
    hide *;
    if list == [] {
      NoIntervals(c, left, clock);
    } else {
      var f, rest := Field(INTERVALDATA, IntervalBytes(list[0])), IntervalFields(list[1..]);
      var d := WithInterval(c, list[0], clock(13 * (|list| - 1) + left));
      IntervalsUnfold(c, list, left, clock);
      IntervalFieldsRead(d, list[1..], left, clock);
      ImageUnfolds([f] + rest);
      assert ([f] + rest)[1..] == rest;
      IntervalProp(c, list[0], clock(13 * (|list| - 1) + left));
      FirstField(c, d, f, rest, left, clock);
    }
  }

  lemma NoIntervals(c: Condition, left: nat, clock: nat -> int)
    requires c.ext.Damage?
    ensures IntervalFields([]) == [] && Image([]) == []
    ensures WithFields(c, [], left, clock) == Some(Refilled(c, [], left, clock))
  {
  }

  lemma IntervalsUnfold(c: Condition, list: seq<IntervalInfo>, left: nat, clock: nat -> int)
    requires c.ext.Damage? && list != []
    ensures IntervalFields(list) == [Field(INTERVALDATA, IntervalBytes(list[0]))] + IntervalFields(list[1..])
    ensures var d := WithInterval(c, list[0], clock(13 * (|list| - 1) + left));
            d.ext.Damage? && Refilled(c, list, left, clock) == Refilled(d, list[1..], left, clock)
  {
  }

  lemma IntervalProp(c: Condition, info: IntervalInfo, now: int)
    requires c.ext.Damage?
    ensures INTERVALDATA != END && |IntervalBytes(info)| == 12
    ensures WidthOf(c.ext, INTERVALDATA) == Some(|IntervalBytes(info)|)
    ensures WithProp(c, INTERVALDATA, IntervalBytes(info), now) == WithInterval(c, info, now)
  {
    IntervalRoundTrip(info);
  }

  /** Reading a list of fields whose first one turns c into d. */
  lemma FirstField(c: Condition, d: Condition, f: Field, rest: seq<Field>, left: nat, clock: nat -> int)
    requires f.attr != END && WidthOf(c.ext, f.attr) == Some(|f.body|)
    requires WithProp(c, f.attr, f.body, clock(|Image(rest)| + left)) == d
    ensures WithFields(c, [f] + rest, left, clock) == WithFields(d, rest, left, clock)
  {
    hide *;
    assert ([f] + rest)[0] == f && ([f] + rest)[1..] == rest;
    WithFieldsStep(c, [f] + rest, left, clock);
  }

  lemma WithFieldsStep(c: Condition, fields: seq<Field>, left: nat, clock: nat -> int)
    requires fields != [] && fields[0].attr != END && WidthOf(c.ext, fields[0].attr) == Some(|fields[0].body|)
    ensures WithFields(c, fields, left, clock) ==
            WithFields(WithProp(c, fields[0].attr, fields[0].body, clock(|Image(fields[1..])| + left)),
                       fields[1..], left, clock)
  {
  }

  // ---------------------------------------------------------------- one condition

  /**
   * What the memory image that is stored of an outfit stands for: lookFamiliar is not written, so head and body are
   * taken for it and every field behind it moves up.
   */
  function Misread(l: Looks): Looks {
    Looks(l.lookType, l.lookTypeEx, l.lookMount, l.lookHead + 0x100 * l.lookBody,
          l.lookLegs, l.lookFeet, l.lookAddons, 0, 0)
  }

  /** Nothing but type, item and mount is set. */
  predicate Bare(l: Looks) {
    l == NoLooks.(lookType := l.lookType, lookTypeEx := l.lookTypeEx, lookMount := l.lookMount)
  }

  /** What a stored condition is after loading, left being the number of bytes stored behind it, END included. */
  function Restored(c: Condition, left: nat, clock: nat -> int): Condition
    requires Modelled(c) && !c.ext.Light?
  {
    var d := AfterHeader(c);
    match c.ext
    case Outfit(outfit) => d.(ext := Outfit(Misread(outfit)))
    case Damage(delayed, periodDamage, damageList) =>
      Refilled(d.(ext := Damage(delayed, periodDamage, [])), damageList, left, clock)
    case _ => d.(ext := c.ext)
  }

  lemma ExtraFieldsRead(c: Condition, left: nat, clock: nat -> int)
    requires Modelled(c) && !c.ext.Light?
    ensures WithFields(AfterHeader(c), ExtraFields(c.ext), left, clock) == Some(Restored(c, left, clock))
  {
    match c.ext
    case Plain =>
    case Regeneration(_, _, _, _, _, _) => RegenerationRead(c, left, clock);
    case Soul(_, _) => SoulRead(c, left, clock);
    case Speed(_, _, _, _, _) => SpeedRead(c, left, clock);
    case Damage(_, _, _) => DamageRead(c, left, clock);
    case Outfit(_) => OutfitRead(c, left, clock);
  }

  /** An attribute with its value takes an object to another whenever it is read. */
  predicate Takes(c: Condition, f: Field, d: Condition) {
    && f.attr != END && f.attr != INTERVALDATA
    && WidthOf(c.ext, f.attr) == Some(|f.body|)
    && WithProp(c, f.attr, f.body, 0) == d
  }

  lemma TakesFirst(c: Condition, d: Condition, f: Field, rest: seq<Field>, left: nat, clock: nat -> int)
    requires Takes(c, f, d)
    ensures WithFields(c, [f] + rest, left, clock) == WithFields(d, rest, left, clock)
  {
    FirstField(c, d, f, rest, left, clock);
  }

  lemma {:induction false} TakesAll(objects: seq<Condition>, fields: seq<Field>, rest: seq<Field>, left: nat,
                                    clock: nat -> int)
    requires |objects| == |fields| + 1
    requires forall i | 0 <= i < |fields| :: Takes(objects[i], fields[i], objects[i + 1])
    ensures WithFields(objects[0], fields + rest, left, clock) == WithFields(objects[|fields|], rest, left, clock)
    decreases |fields|
  {
    hide *;
    if fields == [] {
      assert fields + rest == rest;
    } else {
      assert fields + rest == [fields[0]] + (fields[1..] + rest);
      assert Takes(objects[0], fields[0], objects[0 + 1]);
      TakesFirst(objects[0], objects[1], fields[0], fields[1..] + rest, left, clock);
      forall i | 0 <= i < |fields[1..]|
        ensures Takes(objects[1..][i], fields[1..][i], objects[1..][i + 1])
      {
        assert Takes(objects[i + 1], fields[i + 1], objects[i + 1 + 1]);
      }
      TakesAll(objects[1..], fields[1..], rest, left, clock);
    }
  }

  lemma RegenerationRead(c: Condition, left: nat, clock: nat -> int)
    requires Modelled(c) && c.ext.Regeneration?
    ensures WithFields(AfterHeader(c), ExtraFields(c.ext), left, clock) == Some(Restored(c, left, clock))
  {
    var fields, e, d0 := ExtraFields(c.ext), c.ext, AfterHeader(c);
    WordRoundTrip(e.healthTicks);
    WordRoundTrip(e.healthGain);
    WordRoundTrip(e.healthGainPercent);
    WordRoundTrip(e.manaTicks);
    WordRoundTrip(e.manaGain);
    WordRoundTrip(e.manaGainPercent);
    var d1 := d0.(ext := d0.ext.(healthTicks := e.healthTicks));
    var d2 := d1.(ext := d1.ext.(healthGain := e.healthGain));
    var d3 := d2.(ext := d2.ext.(healthGainPercent := e.healthGainPercent));
    var d4 := d3.(ext := d3.ext.(manaTicks := e.manaTicks));
    var d5 := d4.(ext := d4.ext.(manaGain := e.manaGain));
    TakesAll([d0, d1, d2, d3, d4, d5, d0.(ext := e)], fields, [], left, clock);
    assert fields + [] == fields;
  }

  lemma SoulRead(c: Condition, left: nat, clock: nat -> int)
    requires Modelled(c) && c.ext.Soul?
    ensures WithFields(AfterHeader(c), ExtraFields(c.ext), left, clock) == Some(Restored(c, left, clock))
  {
    var fields, e, d0 := ExtraFields(c.ext), c.ext, AfterHeader(c);
    WordRoundTrip(e.soulGain);
    WordRoundTrip(e.soulTicks);
    TakesAll([d0, d0.(ext := d0.ext.(soulGain := e.soulGain)), d0.(ext := e)], fields, [], left, clock);
    assert fields + [] == fields;
  }

  lemma SpeedRead(c: Condition, left: nat, clock: nat -> int)
    requires Modelled(c) && c.ext.Speed?
    ensures WithFields(AfterHeader(c), ExtraFields(c.ext), left, clock) == Some(Restored(c, left, clock))
  {
    var fields, e, d0 := ExtraFields(c.ext), c.ext, AfterHeader(c);
    IntRoundTrip(e.speedDelta);
    WordRoundTrip(e.mina);
    WordRoundTrip(e.minb);
    WordRoundTrip(e.maxa);
    WordRoundTrip(e.maxb);
    var d1 := d0.(ext := d0.ext.(speedDelta := e.speedDelta));
    var d2 := d1.(ext := d1.ext.(mina := e.mina));
    var d3 := d2.(ext := d2.ext.(minb := e.minb));
    var d4 := d3.(ext := d3.ext.(maxa := e.maxa));
    TakesAll([d0, d1, d2, d3, d4, d0.(ext := e)], fields, [], left, clock);
    assert fields + [] == fields;
  }

  lemma DamageRead(c: Condition, left: nat, clock: nat -> int)
    requires Modelled(c) && c.ext.Damage?
    ensures WithFields(AfterHeader(c), ExtraFields(c.ext), left, clock) == Some(Restored(c, left, clock))
  {
    hide *;
    var e, d0 := c.ext, AfterHeader(c);
    var d1 := d0.(ext := Damage(e.delayed, 0, []));
    var d2 := d0.(ext := Damage(e.delayed, e.periodDamage, []));
    var first := [Field(DELAYED, Little(Flag(e.delayed), 1)), Field(PERIODDAMAGE, Little(e.periodDamage, 4))];
    DamageFields(c, left, clock);
    assert first[0] == Field(DELAYED, Little(Flag(e.delayed), 1)) && [d0, d1, d2][0] == d0;
    TakesAll([d0, d1, d2], first, IntervalFields(e.damageList), left, clock);
    IntervalFieldsRead(d2, e.damageList, left, clock);
  }

  lemma DamageFields(c: Condition, left: nat, clock: nat -> int)
    requires Modelled(c) && c.ext.Damage?
    ensures var e, d0 := c.ext, AfterHeader(c);
            var d1 := d0.(ext := Damage(e.delayed, 0, []));
            var d2 := d0.(ext := Damage(e.delayed, e.periodDamage, []));
            && Takes(d0, Field(DELAYED, Little(Flag(e.delayed), 1)), d1)
            && Takes(d1, Field(PERIODDAMAGE, Little(e.periodDamage, 4)), d2)
            && Restored(c, left, clock) == Refilled(d2, e.damageList, left, clock)
            && ExtraFields(e) ==
               [Field(DELAYED, Little(Flag(e.delayed), 1)), Field(PERIODDAMAGE, Little(e.periodDamage, 4))]
               + IntervalFields(e.damageList)
  {
    FlagRoundTrip(c.ext.delayed);
    IntRoundTrip(c.ext.periodDamage);
  }

  /** The stored outfit is taken for a whole Outfit_t. */
  lemma OutfitRead(c: Condition, left: nat, clock: nat -> int)
    requires Modelled(c) && c.ext.Outfit?
    ensures WithFields(AfterHeader(c), ExtraFields(c.ext), left, clock) == Some(Restored(c, left, clock))
  {
    hide *;
    OutfitFieldTakes(c, left, clock);
    var d := Restored(c, left, clock);
    TakesAll([AfterHeader(c), d], ExtraFields(c.ext), [], left, clock);
    assert ExtraFields(c.ext) + [] == ExtraFields(c.ext);
    WithFieldsUnfolds(d, [], left, clock);
  }

  lemma OutfitFieldTakes(c: Condition, left: nat, clock: nat -> int)
    requires Modelled(c) && c.ext.Outfit?
    ensures |ExtraFields(c.ext)| == 1 && Takes(AfterHeader(c), ExtraFields(c.ext)[0], Restored(c, left, clock))
  {
    LooksMisread(c.ext.outfit);
  }

  lemma LooksMisread(l: Looks)
    ensures LooksOf(LooksBytes(l)) == Misread(l)
  {
    var s := LooksBytes(l);
    Ranges();
    UnsignedRoundTrip(l.lookType, 2);
    UnsignedRoundTrip(l.lookTypeEx, 2);
    UnsignedRoundTrip(l.lookMount, 2);
    assert s[..2] == Little(l.lookType, 2) && s[2..4] == Little(l.lookTypeEx, 2) && s[4..6] == Little(l.lookMount, 2);
    assert s[6..8] == [l.lookHead, l.lookBody];
    TwoBytes(l.lookHead, l.lookBody);
  }

  lemma TwoBytes(a: Byte, b: Byte)
    ensures FromLittle([a, b]) == a + 0x100 * b
  {
    assert [a, b][1..] == [b] && [b][1..] == [];
    assert FromLittle([b]) == b;
  }

  // ---------------------------------------------------------------- attributes that are read one by one

  /** c with the base fields of d, as far as d stores them. */
  function WithBaseOf(c: Condition, d: Condition): Condition {
    d.(ext := c.ext, endTime := if d.constant then d.endTime else c.endTime)
  }

  /** The attribute loop takes every base field in as well, whatever the condition was before. */
  lemma BaseFieldsRead(c: Condition, d: Condition, left: nat, clock: nat -> int)
    ensures WithFields(c, BaseFields(d), left, clock) == Some(WithBaseOf(c, d))
  {
    hide *;
    var c1 := c.(conditionType := d.conditionType);
    var c2 := c1.(id := d.id);
    var c3 := c2.(ticks := d.ticks);
    var c4 := c3.(isBuff := d.isBuff);
    var c5 := c4.(subId := d.subId);
    var c6 := c5.(aggressive := d.aggressive);
    var c7 := c6.(constant := d.constant);
    var fields, last := BaseFields(d), c7.(endTime := d.endTime);
    var objects := if d.constant then [c, c1, c2, c3, c4, c5, c6, c7, last] else [c, c1, c2, c3, c4, c5, c6, c7];
    BaseFieldsInOrder(d);
    HeaderTakes(c, c1, c2, c3, d);
    FlagsTake(c3, c4, c5, c6, c7, last, d);
    forall i | 0 <= i < |fields|
      ensures Takes(objects[i], fields[i], objects[i + 1])
    {
    }
    TakesAll(objects, fields, [], left, clock);
    assert fields + [] == fields;
    WithFieldsUnfolds(objects[|fields|], [], left, clock);
    BaseOf(c, d);
  }

  lemma BaseOf(c: Condition, d: Condition)
    ensures WithBaseOf(c, d) == d.(ext := c.ext, endTime := if d.constant then d.endTime else c.endTime)
  {
  }

  lemma HeaderTakes(c: Condition, c1: Condition, c2: Condition, c3: Condition, d: Condition)
    requires c1 == c.(conditionType := d.conditionType) && c2 == c1.(id := d.id) && c3 == c2.(ticks := d.ticks)
    ensures Takes(c, TypeField(d.conditionType), c1) && Takes(c1, Field(ID, Little(d.id, 4)), c2)
    ensures Takes(c2, Field(TICKS, Little(d.ticks, 4)), c3)
  {
    TypeTakes(c, d.conditionType);
    HeaderValues(d);
  }

  lemma TypeTakes(c: Condition, conditionType: UInt64)
    ensures Takes(c, TypeField(conditionType), c.(conditionType := conditionType))
  {
    TypeRoundTrip(conditionType);
  }

  lemma FlagsTake(c: Condition, c4: Condition, c5: Condition, c6: Condition, c7: Condition, last: Condition,
                  d: Condition)
    requires c4 == c.(isBuff := d.isBuff) && c5 == c4.(subId := d.subId) && c6 == c5.(aggressive := d.aggressive)
    requires c7 == c6.(constant := d.constant) && last == c7.(endTime := d.endTime)
    ensures Takes(c, Field(ISBUFF, Little(Flag(d.isBuff), 1)), c4) && Takes(c4, Field(SUBID, Little(d.subId, 4)), c5)
    ensures Takes(c5, Field(ISAGGRESSIVE, Little(Flag(d.aggressive), 1)), c6)
    ensures Takes(c6, Field(CONSTANT, Little(Flag(d.constant), 1)), c7)
    ensures Takes(c7, Field(ENDTIME, Little(d.endTime, 8)), last)
  {
    HeaderValues(d);
  }

  /** The owner that older saves have in a damage condition is read and forgotten. */
  lemma OwnerIsSkipped(c: Condition, owner: UInt32)
    requires c.ext.Damage?
    ensures Takes(c, Field(OWNER, Little(owner, 4)), c)
  {
  }

  /** The end of the stream closes a condition as well as END does. */
  lemma StreamMayEnd(c: Condition, fields: seq<Field>, clock: nat -> int)
    requires WithFields(c, fields, 0, clock).Some?
    ensures Unserialize(c, Image(fields), clock) == (true, WithFields(c, fields, 0, clock).value, [])
  {
    UnserializeReadsFields(c, fields, [], clock);
    assert Image(fields) + [] == Image(fields);
  }

  // ---------------------------------------------------------------- light

  /**
   * The color of a light condition is stored in four bytes but read from one: the next is taken for an attribute,
   * which there is not, and the last two are left for the next header.
   */
  lemma LightIsNotRead(c: Condition, rest: seq<Byte>, clock: nat -> int)
    requires Modelled(c) && c.ext.Light?
    ensures var (ok, d, unread) := Unserialize(AfterHeader(c), Image(ExtraFields(c.ext)) + rest, clock);
            !ok && Create(unread).None?
  {
    hide *;
    var fields, d := ExtraFields(c.ext), AfterHeader(c);
    LightFields(c);
    HeadField(fields, rest);
    var s, tail := Image(fields) + rest, Image(fields[1..]) + rest;
    SplitAgain(s[1..], [c.ext.color], [0, 0, 0], tail);
    UnserializeUnfolds(d, s, [c.ext.color], [0, 0, 0] + tail, clock);
    NoSuchAttribute(WithProp(d, LIGHTCOLOR, [c.ext.color], clock(|[0, 0, 0] + tail|)), tail, clock);
  }

  lemma LightFields(c: Condition)
    requires Modelled(c) && c.ext.Light?
    ensures ExtraFields(c.ext) != [] && ExtraFields(c.ext)[0] == Field(LIGHTCOLOR, [c.ext.color] + [0, 0, 0])
    ensures LIGHTCOLOR != END && WidthOf(AfterHeader(c).ext, LIGHTCOLOR) == Some(|[c.ext.color]|)
  {
    ColorBytes(c.ext.color);
  }

  /** Bytes taken for one field are a shorter field and the rest of it. */
  lemma SplitAgain(s: seq<Byte>, a: seq<Byte>, b: seq<Byte>, tail: seq<Byte>)
    requires Take(s, |a + b|) == Some((a + b, tail))
    ensures Take(s, |a|) == Some((a, b + tail))
  {
    assert s == a + b + tail;
    assert s == a + (b + tail);
    TakeAppended(a, b + tail);
  }

  lemma NoSuchAttribute(c: Condition, tail: seq<Byte>, clock: nat -> int)
    ensures var (ok, d, unread) := Unserialize(c, [0, 0, 0] + tail, clock);
            !ok && Create(unread).None?
  {
    assert ([0, 0, 0] + tail)[0] == 0 && ([0, 0, 0] + tail)[1..] == [0, 0] + tail;
  }

  lemma ColorBytes(color: Byte)
    ensures Little(color, 4) == [color, 0, 0, 0]
  {
    assert Little(color, 4) == [color] + Little(0, 3) && Little(0, 3) == [0] + Little(0, 2);
    assert Little(0, 2) == [0] + Little(0, 1) && Little(0, 1) == [0] + Little(0, 0);
  }

  // ---------------------------------------------------------------- a whole player

  /** The conditions that come back: the kept ones up to the first light condition among them. */
  function RestoredAll(conditions: seq<Condition>, clock: nat -> int): seq<Condition>
    requires forall c | c in conditions :: Modelled(c)
  {
    if conditions == [] then []
    else if !Kept(conditions[0]) then RestoredAll(conditions[1..], clock)
    else if conditions[0].ext.Light? then []
    else RestoredAll(conditions[1..], clock) + [Restored(conditions[0], |Blob(conditions[1..])| + 1, clock)]
  }

  /**
   * Loading a saved blob gives every kept condition before the first kept light condition restored, in reverse order,
   * and nothing else.
   */
  lemma {:induction false} LoadOfBlob(conditions: seq<Condition>, clock: nat -> int)
    requires forall c | c in conditions :: Modelled(c)
    ensures Load(Blob(conditions), clock) == RestoredAll(conditions, clock)
  {
    hide *;
    if conditions == [] {
      LoadOfNothing(clock);
    } else {
      var c, rest := conditions[0], Blob(conditions[1..]);
      LoadOfBlob(conditions[1..], clock);
      BlobUnfolds(conditions);
      RestoredUnfolds(conditions, clock);
      if Kept(c) && c.ext.Light? {
        LoadStopsAtLight(c, rest, clock);
      } else if Kept(c) {
        LoadOfFirst(c, rest, clock);
      }
    }
  }

  lemma LoadOfNothing(clock: nat -> int)
    ensures Load(Blob([]), clock) == RestoredAll([], clock)
  {
  }

  lemma BlobUnfolds(conditions: seq<Condition>)
    requires conditions != []
    ensures Blob(conditions) ==
            if Kept(conditions[0]) then Serialized(conditions[0]) + [END] + Blob(conditions[1..])
            else Blob(conditions[1..])
  {
  }

  lemma RestoredUnfolds(conditions: seq<Condition>, clock: nat -> int)
    requires conditions != [] && forall c | c in conditions :: Modelled(c)
    ensures RestoredAll(conditions, clock) ==
            if !Kept(conditions[0]) then RestoredAll(conditions[1..], clock)
            else if conditions[0].ext.Light? then []
            else RestoredAll(conditions[1..], clock) + [Restored(conditions[0], |Blob(conditions[1..])| + 1, clock)]
  {
  }

  lemma LoadStopsAtLight(c: Condition, rest: seq<Byte>, clock: nat -> int)
    requires Modelled(c) && c.ext.Light?
    ensures Load(Serialized(c) + [END] + rest, clock) == []
  {
    hide *;
    Grouped(Serialized(c), [END], rest);
    CreateReadsHeader(c, [END] + rest);
    LightIsNotRead(c, [END] + rest, clock);
    var s := Serialized(c) + ([END] + rest);
    LoadUnfolds(s, clock);
    var (ok, d, unread) := Unserialize(AfterHeader(c), Image(ExtraFields(c.ext)) + ([END] + rest), clock);
    LoadUnfolds(unread, clock);
    assert Load(unread, clock) + [] == [];
  }

  lemma LoadOfFirst(c: Condition, rest: seq<Byte>, clock: nat -> int)
    requires Modelled(c) && !c.ext.Light?
    ensures Load(Serialized(c) + [END] + rest, clock) == Load(rest, clock) + [Restored(c, |rest| + 1, clock)]
  {
    hide *;
    var extra := ExtraFields(c.ext);
    Grouped(Serialized(c), [END], rest);
    CreateReadsHeader(c, [END] + rest);
    ExtraFieldsRead(c, |[END] + rest|, clock);
    UnserializeReadsFields(AfterHeader(c), extra, [END] + rest, clock);
    UnserializeEnds(Restored(c, |rest| + 1, clock), rest, clock);
    LoadUnfolds(Serialized(c) + ([END] + rest), clock);
  }

  lemma UnserializeEnds(c: Condition, rest: seq<Byte>, clock: nat -> int)
    ensures Unserialize(c, [END] + rest, clock) == (true, c, rest)
  {
  }

  lemma LoadUnfolds(s: seq<Byte>, clock: nat -> int)
    ensures Create(s).None? ==> Load(s, clock) == []
    ensures Create(s).Some? ==>
              var (c, rest) := Create(s).value;
              var (ok, d, unread) := Unserialize(c, rest, clock);
              |unread| < |s| && Load(s, clock) == Load(unread, clock) + if ok then [d] else []
  {
  }

  function KeptCount(conditions: seq<Condition>): nat {
    if conditions == [] then 0 else KeptCount(conditions[1..]) + if Kept(conditions[0]) then 1 else 0
  }

  /** As many conditions are loaded as were kept exactly when none of those is a light condition. */
  lemma {:induction false} OnlyLightIsLost(conditions: seq<Condition>, clock: nat -> int)
    requires forall c | c in conditions :: Modelled(c)
    ensures |Load(Blob(conditions), clock)| == KeptCount(conditions) <==>
            forall c | c in conditions && Kept(c) :: !c.ext.Light?
    ensures |Load(Blob(conditions), clock)| <= KeptCount(conditions)
  {
    LoadOfBlob(conditions, clock);
    if conditions != [] {
      var rest := conditions[1..];
      assert conditions == [conditions[0]] + rest;
      OnlyLightIsLost(rest, clock);
      LoadOfBlob(rest, clock);
    }
  }

  // ---------------------------------------------------------------- what restoring keeps

  /**
   * A condition that is neither light nor damage comes back whole exactly when its end time is stored or the default,
   * and its outfit, if it has one, is bare; without an outfit at most the end time is lost.
   */
  lemma RestoredIsTheSame(c: Condition, left: nat, clock: nat -> int)
    requires Modelled(c) && !c.ext.Damage? && !c.ext.Light?
    ensures Restored(c, left, clock) == c <==>
            && (c.constant || c.endTime == if c.ticks == -1 then INT64_MAX else 0)
            && (c.ext.Outfit? ==> Bare(c.ext.outfit))
    ensures !c.ext.Outfit? ==> Restored(c, left, clock).(endTime := c.endTime) == c
  {
    assert !BlankOf(c.conditionType).value.Damage?;
  }

  /** The ticks of a damage condition after its list has been read, as setTicks adds them up. */
  function TicksOf(ticks: Int32, list: seq<IntervalInfo>): Int32
    decreases |list|
  {
    if list == [] then ticks
    else TicksOf(if ticks == -1 then -1 else AsInt32(ticks + list[0].interval), list[1..])
  }

  function IntervalSum(list: seq<IntervalInfo>): int
    decreases |list|
  {
    if list == [] then 0 else list[0].interval + IntervalSum(list[1..])
  }

  lemma {:induction false} RefilledKeeps(c: Condition, list: seq<IntervalInfo>, left: nat, clock: nat -> int)
    requires c.ext.Damage?
    ensures var d := Refilled(c, list, left, clock);
            && d.(ticks := c.ticks, endTime := c.endTime) ==
               c.(ext := c.ext.(damageList := c.ext.damageList + list))
            && d.ticks == TicksOf(c.ticks, list)
    decreases |list|
  {
    hide *;
    if list == [] {
      RefilledEnds(c, left, clock);
      assert c.ext.damageList + [] == c.ext.damageList;
    } else {
      var now := clock(13 * (|list| - 1) + left);
      var next := WithInterval(c, list[0], now);
      IntervalsUnfold(c, list, left, clock);
      IntervalTakenIn(c, list, now);
      RefilledKeeps(next, list[1..], left, clock);
      assert c.ext.damageList + [list[0]] + list[1..] == c.ext.damageList + list;
    }
  }

  lemma RefilledEnds(c: Condition, left: nat, clock: nat -> int)
    requires c.ext.Damage?
    ensures Refilled(c, [], left, clock) == c && TicksOf(c.ticks, []) == c.ticks
  {
  }

  lemma IntervalTakenIn(c: Condition, list: seq<IntervalInfo>, now: int)
    requires c.ext.Damage? && list != []
    ensures var next := WithInterval(c, list[0], now);
            && next.(ticks := c.ticks, endTime := c.endTime) ==
               c.(ext := c.ext.(damageList := c.ext.damageList + [list[0]]))
            && TicksOf(c.ticks, list) == TicksOf(next.ticks, list[1..])
  {
  }

  /** A damage condition keeps its list and every field but the ticks and the end time; the ticks are its intervals. */
  lemma RestoredDamage(c: Condition, left: nat, clock: nat -> int)
    requires Modelled(c) && c.ext.Damage?
    ensures var d := Restored(c, left, clock);
            d.(ticks := c.ticks, endTime := c.endTime) == c && d.ticks == TicksOf(0, c.ext.damageList)
  {
    var e := c.ext;
    RefilledKeeps(AfterHeader(c).(ext := Damage(e.delayed, e.periodDamage, [])), e.damageList, left, clock);
    assert [] + e.damageList == e.damageList;
  }

  predicate StopsAtTheTotal(ticks: int, list: seq<IntervalInfo>) {
    forall k | 0 <= k < |list| ::
      ticks + IntervalSum(list[..k]) == -1 ==> ticks + IntervalSum(list) == -1
  }

  /**
   * As long as no running sum leaves 32 bits, the rebuilt ticks are the sum of the intervals exactly when a running
   * sum of -1, which stops the counting, is met only if the whole sum is -1 as well.
   */
  lemma {:induction false} TicksAreTheSum(ticks: Int32, list: seq<IntervalInfo>)
    requires forall k | 0 <= k <= |list| :: -0x8000_0000 <= ticks + IntervalSum(list[..k]) < 0x8000_0000
    ensures TicksOf(ticks, list) == ticks + IntervalSum(list) <==> StopsAtTheTotal(ticks, list)
    decreases |list|
  {
    if list == [] {
    } else if ticks == -1 {
      TicksStayStopped(list);
      assert IntervalSum(list[..0]) == 0;
    } else {
      var sum := ticks + list[0].interval;
      assert list[..1][1..] == [];
      assert ticks + IntervalSum(list[..1]) == sum;
      SignedIdentity(sum);
      forall k | 0 <= k <= |list[1..]|
        ensures sum + IntervalSum(list[1..][..k]) == ticks + IntervalSum(list[..k + 1])
      {
        assert list[..k + 1][1..] == list[1..][..k];
      }
      TicksAreTheSum(sum, list[1..]);
      if StopsAtTheTotal(sum, list[1..]) {
        forall k | 0 <= k < |list|
          ensures ticks + IntervalSum(list[..k]) == -1 ==> ticks + IntervalSum(list) == -1
        {
          if k == 0 {
            assert list[..0] == [];
          } else {
            assert sum + IntervalSum(list[1..][..k - 1]) == ticks + IntervalSum(list[..k - 1 + 1]);
          }
        }
      }
      if StopsAtTheTotal(ticks, list) {
        forall k | 0 <= k < |list[1..]|
          ensures sum + IntervalSum(list[1..][..k]) == -1 ==> sum + IntervalSum(list[1..]) == -1
        {
          assert sum + IntervalSum(list[1..][..k]) == ticks + IntervalSum(list[..k + 1]);
        }
      }
    }
  }

  lemma {:induction false} TicksStayStopped(list: seq<IntervalInfo>)
    ensures TicksOf(-1, list) == -1
    decreases |list|
  {
    if list == [] {
    } else {
      TicksStayStopped(list[1..]);
    }
  }

  lemma SignedIdentity(n: Int32)
    ensures AsInt32(n) == n
  {
    WrapCongruent(n + WORD, n, 0);
  }

  /** The stored end time of a constant damage condition survives exactly when its damage list is empty. */
  lemma ConstantDamageEndTime(c: Condition, left: nat, clock: nat -> int, other: Int64)
    requires Modelled(c) && c.ext.Damage? && c.constant
    ensures c.ext.damageList == [] ==> Restored(c, left, clock).endTime == c.endTime
    ensures c.ext.damageList != [] ==> Restored(c.(endTime := other), left, clock) == Restored(c, left, clock)
  {
  }
}
