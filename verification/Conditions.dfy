/** src/condition.cpp: condition objects, their stored form, and the damage list of a damage condition. */
module Conditions {
  import opened Bytes
  import opened Options
  import opened PropStreams
  import opened ConditionFormat
  import opened ConditionRoundTrip
  import opened DamageLists
  import opened WordArithmetic

  const THINK_INTERVAL: Int32 := 1000  // EVENT_CREATURE_THINK_INTERVAL

  /** A value that has been through std::abs. */
  type Amount = n: Int32 | n >= 0

  /** A condition and the fields of its subclass. */
  class CreatureCondition {
    var conditionType: UInt64
    var id: Int8
    var ticks: Int32
    var isBuff: bool
    var subId: UInt32
    var aggressive: bool
    var constant: bool
    var endTime: Int64
    var ext: Extension

    // not stored, damage conditions only
    var minDamage: Amount
    var maxDamage: Amount
    var startDamage: Amount
    var tickInterval: Amount

    /** The stored part of the state. */
    function Value(): Condition
      reads this
    {
      Condition(conditionType, id, ticks, isBuff, subId, aggressive, constant, endTime, ext)
    }

    /** The part of the state that is set up before a damage condition starts. */
    function Setup(): (Amount, Amount, Amount, Amount)
      reads this
    {
      (minDamage, maxDamage, startDamage, tickInterval)
    }

    constructor (v: Condition)
      ensures Value() == v
    {
      conditionType, id, ticks, isBuff, subId := v.conditionType, v.id, v.ticks, v.isBuff, v.subId;
      aggressive, constant, endTime, ext := v.aggressive, v.constant, v.endTime, v.ext;
      minDamage, maxDamage, startDamage, tickInterval := 0, 0, 0, 2000;
    }

    method SetTicks(newTicks: int, now: int)
      modifies this
      ensures Value() == WithTicks(old(Value()), newTicks, now) && Setup() == old(Setup())
    {
      ticks := AsInt32(newTicks);
      endTime := AsInt64(ticks + now);
    }

    // ---------------------------------------------------------------- storing

    /** Condition::serialize and its overrides. */
    method Serialize(out: PropWriteStream)
      modifies out
      ensures out.buffer == old(out.buffer) + Serialized(Value())
    {
      hide *;
      ghost var before, v := out.buffer, Value();
      NoImage();
      ValueFields();
      BaseFieldsAre(v);
      if conditionType > 0xFFFF_FFFF {
        WriteField(out, TYPE64, conditionType, 8, before, []);
      } else {
        WriteField(out, TYPE, conditionType, 4, before, []);
      }
      ghost var done := [TypeField(conditionType)];
      assert [] + done == done;
      WriteField(out, ID, id, 4, before, done);
      done := done + [Field(ID, Little(id, 4))];
      WriteField(out, TICKS, ticks, 4, before, done);
      done := done + [Field(TICKS, Little(ticks, 4))];
      WriteField(out, ISBUFF, Flag(isBuff), 1, before, done);
      done := done + [Field(ISBUFF, Little(Flag(isBuff), 1))];
      WriteField(out, SUBID, subId, 4, before, done);
      done := done + [Field(SUBID, Little(subId, 4))];
      WriteField(out, ISAGGRESSIVE, Flag(aggressive), 1, before, done);
      done := done + [Field(ISAGGRESSIVE, Little(Flag(aggressive), 1))];
      WriteField(out, CONSTANT, Flag(constant), 1, before, done);
      done := done + [Field(CONSTANT, Little(Flag(constant), 1))];
      if constant {
        WriteField(out, ENDTIME, endTime, 8, before, done);
        done := done + [Field(ENDTIME, Little(endTime, 8))];
      }
      SerializeExtra(out, before, done);
      SerializedIs(v);
    }

    lemma ValueFields()
      ensures var v := Value();
              && v.conditionType == conditionType && v.id == id && v.ticks == ticks && v.isBuff == isBuff
              && v.subId == subId && v.aggressive == aggressive && v.constant == constant && v.endTime == endTime
              && v.ext == ext
    {
    }

    method SerializeExtra(out: PropWriteStream, ghost before: seq<Byte>, ghost done: seq<Field>)
      requires out.buffer == before + Image(done)
      modifies out
      ensures out.buffer == before + Image(done + ExtraFields(ext))
    {
      hide *;
      ghost var fields := ExtraFields(ext);
      ExtraFieldsAre(ext);
      match ext
      case Plain =>
        assert done + [] == done;
      case Regeneration(healthTicks, healthGain, healthGainPercent, manaTicks, manaGain, manaGainPercent) =>
        WriteWords(out, [HEALTHTICKS, HEALTHGAIN, HEALTHGAINPERCENT, MANATICKS, MANAGAIN, MANAGAINPERCENT],
                   [healthTicks, healthGain, healthGainPercent, manaTicks, manaGain, manaGainPercent], before, done);
      case Soul(soulGain, soulTicks) =>
        WriteWords(out, [SOULGAIN, SOULTICKS], [soulGain, soulTicks], before, done);
      case Speed(speedDelta, mina, minb, maxa, maxb) =>
        WriteWords(out, [SPEEDDELTA, FORMULA_MINA, FORMULA_MINB, FORMULA_MAXA, FORMULA_MAXB],
                   [speedDelta, mina, minb, maxa, maxb], before, done);
      case Damage(delayed, periodDamage, damageList) =>
        ghost var first := done + [fields[0]];
        WriteField(out, DELAYED, Flag(delayed), 1, before, done);
        WriteField(out, PERIODDAMAGE, periodDamage, 4, before, first);
        assert first + [fields[1]] + IntervalFields(damageList) == done + fields;
        WriteIntervals(out, damageList, before, first + [fields[1]]);
      case Light(color, level, lightTicks, lightInterval) =>
        WriteWords(out, [LIGHTCOLOR, LIGHTLEVEL, LIGHTTICKS, LIGHTINTERVAL], [color, level, lightTicks, lightInterval],
                   before, done);
      case Outfit(outfit) =>
        WriteLooks(out, outfit, before, done);
    }

    // ---------------------------------------------------------------- loading

    /** The assignments of the unserializeProp overrides. */
    method Assign(attr: Byte, body: seq<Byte>, now: int)
      requires WidthOf(ext, attr) == Some(|body|)
      modifies this
      ensures Value() == WithProp(old(Value()), attr, body, now) && Setup() == old(Setup())
    {
      FromLittleRoundTrip(body);
      Ranges();
      var n := FromLittle(body);
      if OwnWord(ext, attr) {
        AssignWord(attr, n);
      } else if attr in {DELAYED, INTERVALDATA, LIGHTCOLOR, LIGHTLEVEL, OUTFIT} {
        AssignOther(attr, body, now);
      } else {
        AssignBase(attr, n);
      }
    }

    /** The other values of the subclasses. */
    method AssignOther(attr: Byte, body: seq<Byte>, now: int)
      requires attr in {DELAYED, INTERVALDATA, LIGHTCOLOR, LIGHTLEVEL, OUTFIT}
      requires WidthOf(ext, attr) == Some(|body|)
      modifies this
      ensures Value() == WithProp(old(Value()), attr, body, now) && Setup() == old(Setup())
    {
      FromLittleRoundTrip(body);
      Ranges();
      var n := FromLittle(body);
      if attr == DELAYED {
        ext := ext.(delayed := n != 0);
      } else if attr == INTERVALDATA {
        TakeInterval(IntervalOf(body), now);
      } else if attr == LIGHTCOLOR {
        ext := ext.(color := n);
      } else if attr == LIGHTLEVEL {
        ext := ext.(level := n);
      } else {
        ext := ext.(outfit := LooksOf(body));
      }
    }

    method TakeInterval(info: IntervalInfo, now: int)
      requires ext.Damage?
      modifies this
      ensures Value() == WithInterval(old(Value()), info, now) && Setup() == old(Setup())
    {
      ext := ext.(damageList := ext.damageList + [info]);
      if ticks != -1 {
        SetTicks(ticks + info.interval, now);
      }
    }

    method AssignBase(attr: Byte, n: UInt64)
      requires attr == SUBID ==> n < 0x1_0000_0000
      modifies this
      ensures Value() == WithBase(old(Value()), attr, n) && Setup() == old(Setup())
    {
      if attr == TYPE || attr == TYPE64 {
        conditionType := n;
      } else if attr == ID {
        id := AsInt8(n);
      } else if attr == TICKS {
        ticks := AsInt32(n);
      } else if attr == ISBUFF {
        isBuff := n != 0;
      } else if attr == SUBID {
        subId := n;
      } else if attr == ISAGGRESSIVE {
        aggressive := n != 0;
      } else if attr == CONSTANT {
        constant := n != 0;
      } else if attr == ENDTIME {
        endTime := AsInt64(n);
      }
    }

    /** The four-byte values of the subclasses. */
    method AssignWord(attr: Byte, n: UInt32)
      requires OwnWord(ext, attr)
      modifies `ext
      ensures ext == WithWord(old(ext), attr, n)
    {
      match ext
      case Plain =>
      case Regeneration(_, _, _, _, _, _) =>
        if attr == HEALTHTICKS {
          ext := ext.(healthTicks := n);
        } else if attr == HEALTHGAIN {
          ext := ext.(healthGain := n);
        } else if attr == HEALTHGAINPERCENT {
          ext := ext.(healthGainPercent := n);
        } else if attr == MANATICKS {
          ext := ext.(manaTicks := n);
        } else if attr == MANAGAIN {
          ext := ext.(manaGain := n);
        } else {
          ext := ext.(manaGainPercent := n);
        }
      case Soul(_, _) =>
        if attr == SOULGAIN {
          ext := ext.(soulGain := n);
        } else {
          ext := ext.(soulTicks := n);
        }
      case Speed(_, _, _, _, _) =>
        if attr == SPEEDDELTA {
          ext := ext.(speedDelta := AsInt32(n));
        } else if attr == FORMULA_MINA {
          ext := ext.(mina := n);
        } else if attr == FORMULA_MINB {
          ext := ext.(minb := n);
        } else if attr == FORMULA_MAXA {
          ext := ext.(maxa := n);
        } else {
          ext := ext.(maxb := n);
        }
      case Damage(_, _, _) =>
        if attr == PERIODDAMAGE {
          ext := ext.(periodDamage := AsInt32(n));
        }
      case Light(_, _, _, _) =>
        if attr == LIGHTTICKS {
          ext := ext.(lightTicks := n);
        } else {
          ext := ext.(lightInterval := n);
        }
    }

    method UnserializeProp(attr: Byte, stream: PropStream, clock: nat -> int) returns (ok: bool)
      requires stream.Valid()
      modifies this, stream
      ensures stream.Valid() && Setup() == old(Setup())
      ensures match ConditionFormat.UnserializeProp(old(Value()), attr, old(stream.Unread()), clock)
              case None => !ok && Value() == old(Value()) && stream.Unread() == old(stream.Unread())
              case Some((v, rest)) => ok && Value() == v && stream.Unread() == rest
    {
      var width := WidthOf(ext, attr);
      if width.None? {
        return false;
      }
      var body := stream.Read(width.value);
      if body.None? {
        return false;
      }
      Assign(attr, body.value, clock(|stream.Unread()|));
      ok := true;
    }

    method Unserialize(stream: PropStream, clock: nat -> int) returns (ok: bool)
      requires stream.Valid()
      modifies this, stream
      ensures stream.Valid() && Setup() == old(Setup())
      ensures (ok, Value(), stream.Unread()) == ConditionFormat.Unserialize(old(Value()), old(stream.Unread()), clock)
    {
      ghost var all := ConditionFormat.Unserialize(Value(), stream.Unread(), clock);
      var attr := stream.Read(1);
      while attr.Some? && attr.value[0] != END
        invariant stream.Valid() && Setup() == old(Setup())
        invariant attr.Some? ==> |attr.value| == 1 &&
                                 all == ConditionFormat.Unserialize(Value(), attr.value + stream.Unread(), clock)
        invariant attr.None? ==> stream.Unread() == [] && all == (true, Value(), [])
        decreases |stream.Unread()| + (if attr.Some? then 1 else 0)
      {
        assert (attr.value + stream.Unread())[1..] == stream.Unread();
        var taken := UnserializeProp(attr.value[0], stream, clock);
        if !taken {
          return false;
        }
        ghost var unread := stream.Unread();
        attr := stream.Read(1);
        if attr.Some? {
          assert unread == attr.value + stream.Unread();
        }
      }
      if attr.Some? {
        assert (attr.value + stream.Unread())[1..] == stream.Unread();
      }
      ok := true;
    }

    // ---------------------------------------------------------------- damage lists

    /**
     * rounds intervals of the same damage, or a period damage when rounds is -1; false when one is set already. The
     * clock is given by the number of rounds left.
     */
    method AddDamage(rounds: Int32, requestedTime: Int32, value: Int32, clock: nat -> int) returns (ok: bool)
      requires ext.Damage?
      modifies this
      ensures ext.Damage? && minDamage == old(minDamage) && maxDamage == old(maxDamage)
      ensures startDamage == old(startDamage)
      ensures var time := if requestedTime > THINK_INTERVAL then requestedTime else THINK_INTERVAL;
              var v := old(Value());
              if rounds == -1 then
                && ok && tickInterval == time
                && Value() == v.(ticks := -1, ext := v.ext.(periodDamage := value))
              else
                && tickInterval == old(tickInterval)
                && ok == (v.ext.periodDamage <= 0)
                && Value() == (if ok then Lengthened(v, rounds, IntervalInfo(time, value, time), clock) else v)
                && (ok ==> RoundsAdded(v, Value(), rounds, IntervalInfo(time, value, time), clock))
    {
      var time := if requestedTime > THINK_INTERVAL then requestedTime else THINK_INTERVAL;
      if rounds == -1 {
        ext := ext.(periodDamage := value);
        tickInterval := time;
        ticks := -1;
        return true;
      }
      if ext.periodDamage > 0 {
        return false;
      }
      LengthenedAddsRounds(Value(), rounds, IntervalInfo(time, value, time), clock);
      AddRounds(rounds, IntervalInfo(time, value, time), clock);
      ok := true;
    }

    method AddRounds(rounds: int, info: IntervalInfo, clock: nat -> int)
      requires ext.Damage?
      modifies this
      ensures ext.Damage? && Setup() == old(Setup())
      ensures Value() == Lengthened(old(Value()), rounds, info, clock)
    {
      ghost var v := Value();
      for i := 0 to if rounds > 0 then rounds else 0
        invariant ext.Damage? && Setup() == old(Setup())
        invariant Lengthened(v, rounds, info, clock) == Lengthened(Value(), rounds - i, info, clock)
      {
        TakeInterval(info, clock(rounds - i));
      }
    }

    /**
     * init, with the amount that was drawn between minDamage and maxDamage. It looks at the clock first, and then with
     * each portion; clock is given by the number of portions left.
     */
    method Init(amount: Int32, now: int, clock: nat -> int) returns (ok: bool)
      requires ext.Damage?
      requires minDamage <= amount <= maxDamage || maxDamage <= amount <= minDamage
      modifies this
      ensures ext.Damage? && ok == (ext.periodDamage != 0 || ext.damageList != [])
      ensures minDamage == old(minDamage) && maxDamage == old(maxDamage) && tickInterval == old(tickInterval)
      ensures old(ext.periodDamage != 0 || ext.damageList != []) ==>
                Value() == old(Value()) && startDamage == old(startDamage)
      ensures old(ext.periodDamage == 0 && ext.damageList == []) ==>
                && startDamage == (if amount == 0 then old(startDamage)
                                   else StartOf(old(startDamage), maxDamage, amount))
                && Value() == Dealing(WithTicks(old(Value()), 0, now),
                                      PortionsOf(amount, startDamage),
                                      if tickInterval > THINK_INTERVAL then tickInterval else THINK_INTERVAL, clock)
    {
      if ext.periodDamage != 0 {
        return true;
      }
      if ext.damageList != [] {
        return true;
      }
      SetTicks(0, now);
      if amount != 0 {
        if startDamage > maxDamage {
          startDamage := maxDamage;
        } else if startDamage == 0 {
          DefaultStartIsAmount(amount);
          startDamage := DefaultStart(amount);
        }
        var list := GenerateDamageList(amount, startDamage);
        FallsThroughEveryValue(amount, startDamage);
        DealOut(list, clock);
      }
      ok := ext.damageList != [];
    }

    method DealOut(portions: seq<int>, clock: nat -> int)
      requires ext.Damage? && ext.periodDamage == 0 && Falls(portions, startDamage)
      modifies this
      ensures ext.Damage? && ext.periodDamage == 0 && Setup() == old(Setup())
      ensures Value() == Dealing(old(Value()), portions,
                                 if tickInterval > THINK_INTERVAL then tickInterval else THINK_INTERVAL, clock)
    {
      hide *;
      var list := portions;
      ghost var time := if tickInterval > THINK_INTERVAL then tickInterval else THINK_INTERVAL;
      FallsMeans(portions, startDamage);
      ValueFields();
      SetupFields();
      while list != []
        invariant Setup() == old(Setup()) == (minDamage, maxDamage, startDamage, tickInterval)
        invariant forall p | p in list :: 1 <= p <= startDamage
        invariant ext.Damage? && ext.periodDamage == 0 && Value().ext == ext
        invariant Dealing(old(Value()), portions, time, clock) == Dealing(Value(), list, time, clock)
        decreases |list|
      {
        var portion := list[0];
        assert portion in list;
        ghost var v := Value();
        ValueFields();
        SetupFields();
        var left := |list|;
        var reading: nat -> int := (_: nat) => clock(left);
        DealingUnfolds(v, list, time, clock, reading);
        var added := AddDamage(1, tickInterval, 0 - portion, reading);
        ValueFields();
        SetupFields();
        assert forall p | p in list[1..] :: p in list;
        list := list[1..];
      }
      ValueFields();
      NothingDealt(Value(), time, clock);
    }

    lemma SetupFields()
      ensures Setup() == (minDamage, maxDamage, startDamage, tickInterval)
    {
    }

    method GetTotalDamage() returns (total: nat)
      requires ext.Damage?
      ensures total == TotalDamage(ext.damageList, minDamage, maxDamage)
    {
      var result := 0;
      if ext.damageList != [] {
        assert ext.damageList[0..] == ext.damageList;
        for i := 0 to |ext.damageList|
          invariant result + ValueSum(ext.damageList[i..]) == ValueSum(ext.damageList)
        {
          assert ext.damageList[i..][1..] == ext.damageList[i + 1..];
          result := result + ext.damageList[i].value;
        }
        assert ext.damageList[|ext.damageList|..] == [];
      } else {
        result := minDamage + HalfTowardZero(maxDamage - minDamage);
      }
      total := Abs(result);
    }
  }

  // ---------------------------------------------------------------- players

  /** Reads an attribute byte, which must be the given one, and the value behind it. */
  method ReadExpected(stream: PropStream, attr: Byte, width: nat) returns (body: Option<seq<Byte>>)
    requires stream.Valid()
    modifies stream
    ensures stream.Valid()
    ensures match Expect(old(stream.Unread()), attr, width)
            case None => body == None
            case Some((value, rest)) => body == Some(value) && stream.Unread() == rest
  {
    var a := stream.Read(1);
    if a.None? || a.value[0] != attr {
      return None;
    }
    body := stream.Read(width);
  }

  method ReadFlags(stream: PropStream) returns (flags: Option<Flags>)
    requires stream.Valid()
    modifies stream
    ensures stream.Valid()
    ensures match FlagsOf(old(stream.Unread()))
            case None => flags == None
            case Some((value, rest)) => flags == Some(value) && stream.Unread() == rest
  {
    var buff := ReadExpected(stream, ISBUFF, 1);
    if buff.None? {
      return None;
    }
    var subId := ReadExpected(stream, SUBID, 4);
    if subId.None? {
      return None;
    }
    var aggressive := ReadExpected(stream, ISAGGRESSIVE, 1);
    if aggressive.None? {
      return None;
    }
    var constant := ReadExpected(stream, CONSTANT, 1);
    if constant.None? {
      return None;
    }
    FromLittleRoundTrip(subId.value);
    Ranges();
    flags := Some(Flags(FromLittle(buff.value) != 0, FromLittle(subId.value), FromLittle(aggressive.value) != 0,
                        FromLittle(constant.value) != 0));
  }

  /** createCondition(PropStream&); null when the header is not one of a known condition. */
  method CreateCondition(stream: PropStream) returns (condition: CreatureCondition?)
    requires stream.Valid()
    modifies stream
    ensures stream.Valid()
    ensures match Create(old(stream.Unread()))
            case None => condition == null
            case Some((v, rest)) =>
              condition != null && fresh(condition) && condition.Value() == v && stream.Unread() == rest
  {
    condition := null;
    var numbers := ReadNumbers(stream);
    if numbers.None? {
      return;
    }
    var blank := BlankOf(FromLittle(numbers.value.kind));
    var flags := ReadFlags(stream);
    if flags.None? || blank.None? {
      return;
    }
    FromLittleRoundTrip(numbers.value.kind);
    Ranges();
    var v := NewCondition(FromLittle(numbers.value.kind), AsInt8(FromLittle(numbers.value.id)),
                          AsInt32(FromLittle(numbers.value.ticks)), flags.value, blank.value);
    condition := NewObject(v, flags.value.constant, stream);
  }

  method ReadNumbers(stream: PropStream) returns (numbers: Option<Numbers>)
    requires stream.Valid()
    modifies stream
    ensures stream.Valid()
    ensures match NumbersOf(old(stream.Unread()))
            case None => numbers == None
            case Some((value, rest)) => numbers == Some(value) && stream.Unread() == rest
  {
    var attr := stream.Read(1);
    if attr.None? || TypeWidth(attr.value[0]).None? {
      return None;
    }
    var kind := stream.Read(TypeWidth(attr.value[0]).value);
    if kind.None? {
      return None;
    }
    var id := ReadExpected(stream, ID, 4);
    if id.None? {
      return None;
    }
    var ticks := ReadExpected(stream, TICKS, 4);
    if ticks.None? {
      return None;
    }
    numbers := Some(Numbers(kind.value, id.value, ticks.value));
  }

  /** The object for a header that has been read up to the end time, which follows if it is constant. */
  method NewObject(v: Condition, constant: bool, stream: PropStream) returns (condition: CreatureCondition?)
    requires stream.Valid()
    modifies stream
    ensures stream.Valid()
    ensures condition != null ==> fresh(condition)
    ensures !constant ==> condition != null && condition.Value() == v && stream.Unread() == old(stream.Unread())
    ensures constant ==>
              match Expect(old(stream.Unread()), ENDTIME, 8)
              case None => condition == null
              case Some((body, rest)) =>
                && condition != null && stream.Unread() == rest
                && condition.Value() == v.(constant := true, endTime := AsInt64(FromLittle(body)))
  {
    condition := null;
    var w := v;
    if constant {
      var endTime := ReadExpected(stream, ENDTIME, 8);
      if endTime.None? {
        return;
      }
      w := v.(constant := true, endTime := AsInt64(FromLittle(endTime.value)));
    }
    condition := new CreatureCondition(w);
  }

  function Values(list: seq<CreatureCondition>): (values: seq<Condition>)
    reads list
    ensures |values| == |list|
    ensures forall i | 0 <= i < |list| :: values[i] == list[i].Value()
  {
    if list == [] then [] else [list[0].Value()] + Values(list[1..])
  }

  /** The condition blob of a player save. */
  method SaveConditions(conditions: seq<CreatureCondition>, out: PropWriteStream)
    modifies out
    ensures out.buffer == old(out.buffer) + Blob(Values(conditions))
  {
    hide *;
    ghost var all := Values(conditions);
    ghost var before := out.buffer;
    assert all[0..] == all;
    for i := 0 to |conditions|
      invariant Values(conditions) == all
      invariant out.buffer + Blob(all[i..]) == before + Blob(all)
    {
      BlobOfRest(all, i);
      KeptIs(conditions[i]);
      if conditions[i].constant || IsPersistent(conditions[i]) {
        ghost var written := out.buffer;
        conditions[i].Serialize(out);
        out.Write(END, 1);
        ByteImage(END);
        JoinRight(written, Serialized(all[i]), [END], Blob(all[i + 1..]));
      }
    }
    BlobOfNone();
    assert all[|conditions|..] == [];
    assert out.buffer + [] == out.buffer;
  }

  lemma ByteImage(b: Byte)
    ensures Little(b, 1) == [b]
  {
  }

  lemma BlobOfNone()
    ensures Blob([]) == []
  {
  }

  lemma KeptIs(c: CreatureCondition)
    ensures (c.constant || IsPersistent(c)) == Kept(c.Value())
  {
  }

  predicate IsPersistent(c: CreatureCondition)
    reads c
  {
    if c.ticks == -1 then false
    else c.id == -1 || c.id == 0 || c.conditionType == MUTED
  }

  lemma BlobOfRest(all: seq<Condition>, i: nat)
    requires i < |all|
    ensures Blob(all[i..]) ==
            if Kept(all[i]) then Serialized(all[i]) + [END] + Blob(all[i + 1..]) else Blob(all[i + 1..])
  {
    assert all[i..][1..] == all[i + 1..];
  }

  /** The loading loop of a player. */
  method LoadConditions(stream: PropStream, clock: nat -> int) returns (stored: seq<CreatureCondition>)
    requires stream.Valid()
    modifies stream
    ensures fresh(stored) && Values(stored) == Load(old(stream.Unread()), clock)
  {
    hide *;
    stored := [];
    ghost var all := Load(stream.Unread(), clock);
    ghost var unread := stream.Unread();
    NoValues();
    assert all + [] == all;
    var condition := CreateCondition(stream);
    while condition != null
      invariant stream.Valid() && fresh(stored) && (condition != null ==> fresh(condition) && condition !in stored)
      invariant all == Load(unread, clock) + Values(stored)
      invariant match Create(unread)
                case None => condition == null
                case Some((v, rest)) => condition != null && condition.Value() == v && stream.Unread() == rest
      decreases |unread|
    {
      LoadUnfolds(unread, clock);
      ghost var values := Values(stored);
      var ok := condition.Unserialize(stream, clock);
      assert Values(stored) == values;
      if ok {
        ValuesOfMore(condition, stored);
        stored := [condition] + stored;
        assert Load(stream.Unread(), clock) + [condition.Value()] + values ==
               Load(stream.Unread(), clock) + ([condition.Value()] + values);
      }
      unread := stream.Unread();
      condition := CreateCondition(stream);
    }
    LoadUnfolds(unread, clock);
    assert [] + Values(stored) == Values(stored);
  }

  lemma NoValues()
    ensures Values([]) == []
  {
  }

  lemma ValuesOfMore(c: CreatureCondition, list: seq<CreatureCondition>)
    ensures Values([c] + list) == [c.Value()] + Values(list)
  {
    assert ([c] + list)[1..] == list;
  }

  // ---------------------------------------------------------------- writing helpers

  method WriteField(out: PropWriteStream, attr: Byte, value: int, width: nat, ghost before: seq<Byte>,
                    ghost done: seq<Field>)
    requires out.buffer == before + Image(done)
    modifies out
    ensures out.buffer == before + Image(done + [Field(attr, Little(value, width))])
  {
    hide *;
    out.Write(attr, 1);
    out.Write(value, width);
    ghost var f := Field(attr, Little(value, width));
    ImageAppend(done, [f]);
    ImageOfOne(f);
    ByteImage(attr);
    JoinRight(before, Image(done), [attr], f.body);
  }

  lemma ImageOfOne(f: Field)
    ensures Image([f]) == [f.attr] + f.body
  {
    assert Image([f]) == [f.attr] + f.body + [];
  }

  function WordFields(attrs: seq<Byte>, values: seq<int>): seq<Field>
    requires |attrs| == |values|
  {
    seq(|attrs|, i requires 0 <= i < |attrs| => Field(attrs[i], Little(values[i], 4)))
  }

  lemma WordFieldsAre(attrs: seq<Byte>, values: seq<int>)
    requires |attrs| == |values|
    ensures |WordFields(attrs, values)| == |attrs|
    ensures forall i | 0 <= i < |attrs| :: WordFields(attrs, values)[i] == Field(attrs[i], Little(values[i], 4))
  {
  }

  method WriteWords(out: PropWriteStream, attrs: seq<Byte>, values: seq<int>, ghost before: seq<Byte>,
                    ghost done: seq<Field>)
    requires |attrs| == |values| && out.buffer == before + Image(done)
    modifies out
    ensures out.buffer == before + Image(done + WordFields(attrs, values))
  {
    hide *;
    ghost var fields := WordFields(attrs, values);
    WordFieldsAre(attrs, values);
    assert done + fields[..0] == done;
    for i := 0 to |attrs|
      invariant out.buffer == before + Image(done + fields[..i])
    {
      WriteField(out, attrs[i], values[i], 4, before, done + fields[..i]);
      assert done + fields[..i] + [fields[i]] == done + fields[..i + 1];
    }
    assert fields[..|attrs|] == fields;
  }

  lemma BaseFieldsAre(v: Condition)
    ensures TypeField(v.conditionType) == if v.conditionType > 0xFFFF_FFFF
                                          then Field(TYPE64, Little(v.conditionType, 8))
                                          else Field(TYPE, Little(v.conditionType, 4))
    ensures var header := [TypeField(v.conditionType)] + [Field(ID, Little(v.id, 4))]
                          + [Field(TICKS, Little(v.ticks, 4))] + [Field(ISBUFF, Little(Flag(v.isBuff), 1))]
                          + [Field(SUBID, Little(v.subId, 4))] + [Field(ISAGGRESSIVE, Little(Flag(v.aggressive), 1))]
                          + [Field(CONSTANT, Little(Flag(v.constant), 1))];
            BaseFields(v) == if v.constant then header + [Field(ENDTIME, Little(v.endTime, 8))] else header
  {
  }

  lemma ExtraFieldsAre(ext: Extension)
    ensures match ext
            case Plain => ExtraFields(ext) == []
            case Regeneration(healthTicks, healthGain, healthGainPercent, manaTicks, manaGain, manaGainPercent) =>
              ExtraFields(ext) ==
              WordFields([HEALTHTICKS, HEALTHGAIN, HEALTHGAINPERCENT, MANATICKS, MANAGAIN, MANAGAINPERCENT],
                         [healthTicks, healthGain, healthGainPercent, manaTicks, manaGain, manaGainPercent])
            case Soul(soulGain, soulTicks) =>
              ExtraFields(ext) == WordFields([SOULGAIN, SOULTICKS], [soulGain, soulTicks])
            case Speed(speedDelta, mina, minb, maxa, maxb) =>
              ExtraFields(ext) == WordFields([SPEEDDELTA, FORMULA_MINA, FORMULA_MINB, FORMULA_MAXA, FORMULA_MAXB],
                                             [speedDelta, mina, minb, maxa, maxb])
            case Damage(delayed, periodDamage, damageList) =>
              ExtraFields(ext) ==
              [Field(DELAYED, Little(Flag(delayed), 1)), Field(PERIODDAMAGE, Little(periodDamage, 4))]
              + IntervalFields(damageList)
            case Light(color, level, lightTicks, lightInterval) =>
              ExtraFields(ext) == WordFields([LIGHTCOLOR, LIGHTLEVEL, LIGHTTICKS, LIGHTINTERVAL],
                                             [color, level, lightTicks, lightInterval])
            case Outfit(outfit) => ExtraFields(ext) == [Field(OUTFIT, LooksBytes(outfit))]
  {
  }

  /** ConditionOutfit::serialize, after the base fields. */
  method WriteLooks(out: PropWriteStream, l: Looks, ghost before: seq<Byte>, ghost done: seq<Field>)
    requires out.buffer == before + Image(done)
    modifies out
    ensures out.buffer == before + Image(done + [Field(OUTFIT, LooksBytes(l))])
  {
    hide *;
    out.Write(OUTFIT, 1);
    out.Write(l.lookType, 2);
    out.Write(l.lookTypeEx, 2);
    out.Write(l.lookMount, 2);
    out.Write(l.lookHead, 1);
    out.Write(l.lookBody, 1);
    out.Write(l.lookLegs, 1);
    out.Write(l.lookFeet, 1);
    out.Write(l.lookAddons, 1);
    ghost var written := out.buffer;
    ghost var zeros: seq<Byte> := [];
    ByteImage(0);
    LooksImage(l, before + Image(done));
    assert written + [] == written;
    for i := 11 to LOOKS_SIZE
      invariant |zeros| == i - 11 && (forall k | 0 <= k < |zeros| :: zeros[k] == 0) && out.buffer == written + zeros
    {
      out.Write(0, 1);
      assert written + zeros + [0] == written + (zeros + [0]);
      zeros := zeros + [0];
    }
    assert zeros == [0, 0, 0];
    ImageAppend(done, [Field(OUTFIT, LooksBytes(l))]);
    Grouped(before, Image(done), Image([Field(OUTFIT, LooksBytes(l))]));
  }

  lemma LooksImage(l: Looks, s: seq<Byte>)
    ensures LOOKS_SIZE == 14
    ensures s + Little(OUTFIT, 1) + Little(l.lookType, 2) + Little(l.lookTypeEx, 2) + Little(l.lookMount, 2)
            + Little(l.lookHead, 1) + Little(l.lookBody, 1) + Little(l.lookLegs, 1) + Little(l.lookFeet, 1)
            + Little(l.lookAddons, 1) + [0, 0, 0] ==
            s + Image([Field(OUTFIT, LooksBytes(l))])
  {
    ImageOfOne(Field(OUTFIT, LooksBytes(l)));
    ByteImage(OUTFIT);
    ByteImage(l.lookHead);
    ByteImage(l.lookBody);
    ByteImage(l.lookLegs);
    ByteImage(l.lookFeet);
    ByteImage(l.lookAddons);
  }

  method WriteInterval(out: PropWriteStream, info: IntervalInfo, ghost before: seq<Byte>, ghost done: seq<Field>)
    requires out.buffer == before + Image(done)
    modifies out
    ensures out.buffer == before + Image(done + [Field(INTERVALDATA, IntervalBytes(info))])
  {
    hide *;
    out.Write(INTERVALDATA, 1);
    out.Write(info.timeLeft, 4);
    out.Write(info.value, 4);
    out.Write(info.interval, 4);
    ghost var f := Field(INTERVALDATA, IntervalBytes(info));
    ImageAppend(done, [f]);
    ImageOfInterval(info);
    var a, b, c := Little(info.timeLeft, 4), Little(info.value, 4), Little(info.interval, 4);
    JoinRight(before + Image(done) + Little(INTERVALDATA, 1), a, b, c);
    Grouped(before + Image(done), Little(INTERVALDATA, 1), a + b + c);
    Grouped(before, Image(done), Image([f]));
  }

  lemma ImageOfInterval(info: IntervalInfo)
    ensures Image([Field(INTERVALDATA, IntervalBytes(info))]) ==
            Little(INTERVALDATA, 1) + (Little(info.timeLeft, 4) + Little(info.value, 4) + Little(info.interval, 4))
  {
    var f := Field(INTERVALDATA, IntervalBytes(info));
    ImageOfOne(f);
    ByteImage(INTERVALDATA);
  }

  lemma JoinRight(a: seq<Byte>, b: seq<Byte>, c: seq<Byte>, d: seq<Byte>)
    ensures a + b + c + d == a + (b + c + d)
  {
  }

  lemma IntervalFieldsUnfold(list: seq<IntervalInfo>)
    ensures list == [] ==> IntervalFields(list) == []
    ensures list != [] ==>
              IntervalFields(list) == [Field(INTERVALDATA, IntervalBytes(list[0]))] + IntervalFields(list[1..])
  {
  }

  method WriteIntervals(out: PropWriteStream, list: seq<IntervalInfo>, ghost before: seq<Byte>, ghost done: seq<Field>)
    requires out.buffer == before + Image(done)
    modifies out
    ensures out.buffer == before + Image(done + IntervalFields(list))
  {
    hide *;
    ghost var written := done;
    assert list[0..] == list;
    for i := 0 to |list|
      invariant out.buffer == before + Image(written)
      invariant written + IntervalFields(list[i..]) == done + IntervalFields(list)
    {
      WriteInterval(out, list[i], before, written);
      IntervalFieldsUnfold(list[i..]);
      ghost var f := Field(INTERVALDATA, IntervalBytes(list[i]));
      assert list[i..][1..] == list[i + 1..] && list[i..][0] == list[i];
      assert written + ([f] + IntervalFields(list[i + 1..])) == written + [f] + IntervalFields(list[i + 1..]);
      written := written + [f];
    }
    IntervalFieldsUnfold(list[|list|..]);
    assert written + [] == written;
  }

  // ---------------------------------------------------------------- damage list specification

  /** The same interval taken in several times; the clock is given by the number of rounds left. */
  function Lengthened(c: Condition, rounds: int, info: IntervalInfo, clock: nat -> int): Condition
    requires c.ext.Damage?
    decreases rounds
  {
    if rounds <= 0 then c else Lengthened(WithInterval(c, info, clock(rounds)), rounds - 1, info, clock)
  }

  function Copies(info: IntervalInfo, n: nat): seq<IntervalInfo> {
    seq(n, _ => info)
  }

  /** The ticks after k rounds. */
  function TicksAfter(ticks: int, interval: int, k: nat): int {
    ticks + k * interval
  }

  /** No round finds the ticks at -1, which would end the counting. */
  predicate KeepsCounting(ticks: int, interval: int, n: nat) {
    forall k: nat | k < n :: TicksAfter(ticks, interval, k) != -1
  }

  /**
   * d is c after so many rounds, none if their number is negative: the list is longer by a copy of the interval for
   * each; ticks other than -1 have grown by all their lengths, as far as 32 bits go and -1 is not hit, and the end time
   * follows from the last reading of the clock; nothing else has changed.
   */
  predicate RoundsAdded(c: Condition, d: Condition, rounds: int, info: IntervalInfo, clock: nat -> int)
    requires c.ext.Damage?
  {
    var n := if rounds > 0 then rounds else 0;
    && d == c.(ticks := d.ticks, endTime := d.endTime,
               ext := c.ext.(damageList := c.ext.damageList + Copies(info, n)))
    && (n == 0 || c.ticks == -1 ==> d.ticks == c.ticks && d.endTime == c.endTime)
    && (n > 0 && 0 <= info.interval && TicksAfter(c.ticks, info.interval, n) < 0x8000_0000 &&
        KeepsCounting(c.ticks, info.interval, n) ==>
          && d.ticks == TicksAfter(c.ticks, info.interval, n)
          && d.endTime == AsInt64(d.ticks + clock(1)))
  }

  lemma {:induction false} LengthenedAddsRounds(c: Condition, rounds: int, info: IntervalInfo, clock: nat -> int)
    requires c.ext.Damage?
    ensures RoundsAdded(c, Lengthened(c, rounds, info, clock), rounds, info, clock)
    decreases rounds
  {
    hide *;
    if rounds <= 0 {
      NoRounds(c, rounds, info, clock);
    } else {
      var next := WithInterval(c, info, clock(rounds));
      OneRound(c, rounds, info, clock);
      LengthenedAddsRounds(next, rounds - 1, info, clock);
      RoundFirst(c, next, Lengthened(next, rounds - 1, info, clock), rounds, info, clock);
    }
  }

  lemma NoRounds(c: Condition, rounds: int, info: IntervalInfo, clock: nat -> int)
    requires c.ext.Damage? && rounds <= 0
    ensures Lengthened(c, rounds, info, clock) == c && RoundsAdded(c, c, rounds, info, clock)
  {
    assert c.ext.damageList + Copies(info, 0) == c.ext.damageList;
  }

  lemma OneRound(c: Condition, rounds: int, info: IntervalInfo, clock: nat -> int)
    requires c.ext.Damage? && rounds > 0
    ensures var next := WithInterval(c, info, clock(rounds));
            && next.ext.Damage?
            && Lengthened(c, rounds, info, clock) == Lengthened(next, rounds - 1, info, clock)
  {
  }

  lemma RoundFirst(c: Condition, next: Condition, d: Condition, rounds: int, info: IntervalInfo, clock: nat -> int)
    requires c.ext.Damage? && rounds > 0 && next == WithInterval(c, info, clock(rounds))
    requires RoundsAdded(next, d, rounds - 1, info, clock)
    ensures RoundsAdded(c, d, rounds, info, clock)
  {
    hide *;
    var n: nat := rounds - 1;
    IntervalTaken(c, info, clock(rounds));
    RoundsAddedIs(next, d, n, info, clock);
    RoundsAddedIs(c, d, rounds, info, clock);
    CopiesFirst(c.ext.damageList, info, n);
    if 0 <= info.interval && TicksAfter(c.ticks, info.interval, rounds) < 0x8000_0000 &&
       KeepsCounting(c.ticks, info.interval, rounds) {
      TicksShift(c.ticks, c.ticks + info.interval, info.interval, n);
      SignedIdentity(c.ticks + info.interval);
    }
  }

  lemma RoundsAddedIs(c: Condition, d: Condition, n: nat, info: IntervalInfo, clock: nat -> int)
    requires c.ext.Damage?
    ensures RoundsAdded(c, d, n, info, clock) <==>
              && d == c.(ticks := d.ticks, endTime := d.endTime,
                         ext := c.ext.(damageList := c.ext.damageList + Copies(info, n)))
              && (n == 0 || c.ticks == -1 ==> d.ticks == c.ticks && d.endTime == c.endTime)
              && (n > 0 && 0 <= info.interval && TicksAfter(c.ticks, info.interval, n) < 0x8000_0000 &&
                  KeepsCounting(c.ticks, info.interval, n) ==>
                    && d.ticks == TicksAfter(c.ticks, info.interval, n)
                    && d.endTime == AsInt64(d.ticks + clock(1)))
  {
  }

  lemma CopiesFirst(list: seq<IntervalInfo>, info: IntervalInfo, n: nat)
    ensures list + [info] + Copies(info, n) == list + Copies(info, n + 1)
  {
  }

  lemma IntervalTaken(c: Condition, info: IntervalInfo, now: int)
    requires c.ext.Damage?
    ensures var d := WithInterval(c, info, now);
            && d == c.(ticks := d.ticks, endTime := d.endTime,
                       ext := c.ext.(damageList := c.ext.damageList + [info]))
            && (if c.ticks == -1 then d.ticks == c.ticks && d.endTime == c.endTime
                else d.ticks == AsInt32(c.ticks + info.interval) && d.endTime == AsInt64(d.ticks + now))
  {
  }

  lemma TicksShift(ticks: Int32, next: int, interval: Int32, n: nat)
    requires next == ticks + interval && 0 <= interval
    requires TicksAfter(ticks, interval, n + 1) < 0x8000_0000 && KeepsCounting(ticks, interval, n + 1)
    ensures ticks != -1 && next < 0x8000_0000
    ensures TicksAfter(next, interval, n) == TicksAfter(ticks, interval, n + 1)
    ensures KeepsCounting(next, interval, n) && TicksAfter(next, interval, 0) == next
    ensures n > 0 ==> next != -1
  {
    assert TicksAfter(ticks, interval, 0) != -1;
    assert n * interval >= 0;
    forall k: nat | k < n
      ensures TicksAfter(next, interval, k) != -1
    {
      assert TicksAfter(ticks, interval, k + 1) != -1;
      assert (k + 1) * interval == k * interval + interval;
    }
    assert (n + 1) * interval == n * interval + interval;
    assert TicksAfter(next, interval, 0) == next;
  }

  /** One interval for each portion, doing that much damage; the clock is given by the number of portions left. */
  function Dealing(c: Condition, portions: seq<int>, time: Int32, clock: nat -> int): Condition
    requires c.ext.Damage?
    decreases |portions|
  {
    if portions == [] then c
    else
      Dealing(WithInterval(c, IntervalInfo(time, AsInt32(0 - portions[0]), time), clock(|portions|)), portions[1..],
              time, clock)
  }

  function PortionsOf(amount: int, start: int): seq<int> {
    if amount == 0 then [] else Generate(amount, start)
  }

  lemma FallsMeans(portions: seq<int>, top: int)
    requires Falls(portions, top)
    ensures forall p | p in portions :: 1 <= p <= top
  {
  }

  /** Dealing a first portion is one round of addDamage. */
  lemma DealingUnfolds(c: Condition, portions: seq<int>, time: Int32, clock: nat -> int, reading: nat -> int)
    requires c.ext.Damage? && c.ext.periodDamage == 0 && portions != [] && 0 < portions[0] < 0x8000_0000
    requires reading(1) == clock(|portions|)
    ensures var d := Lengthened(c, 1, IntervalInfo(time, 0 - portions[0], time), reading);
            && d.ext.Damage? && d.ext.periodDamage == 0
            && Dealing(c, portions, time, clock) == Dealing(d, portions[1..], time, clock)
  {
    SignedIdentity(0 - portions[0]);
    var info := IntervalInfo(time, 0 - portions[0], time);
    assert Lengthened(c, 1, info, reading) == Lengthened(WithInterval(c, info, reading(1)), 0, info, reading);
  }

  lemma NothingDealt(c: Condition, time: Int32, clock: nat -> int)
    requires c.ext.Damage?
    ensures Dealing(c, [], time, clock) == c
  {
  }

  function StartOf(start: Amount, maxDamage: Amount, amount: int): nat {
    if start > maxDamage then maxDamage else if start == 0 then DefaultStart(amount) else start
  }

  function ValueSum(list: seq<IntervalInfo>): int {
    if list == [] then 0 else list[0].value + ValueSum(list[1..])
  }

  /** The damage a condition has still to do, or the middle of its range before it has started. */
  function TotalDamage(list: seq<IntervalInfo>, minDamage: Amount, maxDamage: Amount): nat {
    Abs(if list != [] then ValueSum(list) else minDamage + HalfTowardZero(maxDamage - minDamage))
  }

  /** Before it has started a damage condition counts with the middle of its range, rounded to the minimum. */
  lemma TotalBeforeStart(minDamage: Amount, maxDamage: Amount)
    ensures var total := TotalDamage([], minDamage, maxDamage);
            if minDamage <= maxDamage then
              minDamage <= total <= maxDamage && 0 <= minDamage + maxDamage - 2 * total <= 1
            else maxDamage <= total <= minDamage && 0 <= 2 * total - minDamage - maxDamage <= 1
  {
  }

  /** C++ division by 2. */
  function HalfTowardZero(n: int): int {
    if n >= 0 then n / 2 else 0 - (0 - n) / 2
  }

  lemma DefaultStartIsAmount(amount: int)
    ensures 1 <= DefaultStart(amount) && (amount >= 1 ==> DefaultStart(amount) <= amount)
  {
  }

  // ---------------------------------------------------------------- what init promises

  lemma {:induction false} DealingLengthens(c: Condition, portions: seq<int>, time: Int32, clock: nat -> int)
    requires c.ext.Damage? && time > 0 && c.ticks >= 0 && c.ticks + |portions| * time < 0x8000_0000
    requires forall p | p in portions :: 0 < p < 0x8000_0000
    ensures var d := Dealing(c, portions, time, clock);
            && d.ext.Damage?
            && d.ticks == c.ticks + |portions| * time
            && |d.ext.damageList| == |c.ext.damageList| + |portions|
            && ValueSum(d.ext.damageList) == ValueSum(c.ext.damageList) - Total(portions)
    decreases |portions|
  {
    hide *;
    if portions == [] {
      NothingDealt(c, time, clock);
      NoTotal();
    } else {
      assert portions[0] in portions && forall p | p in portions[1..] :: p in portions;
      OnePortionMore(|portions|, time);
      var next := PortionDealt(c, portions, time, clock);
      DealingLengthens(next, portions[1..], time, clock);
    }
  }

  lemma NoTotal()
    ensures Total([]) == 0
  {
  }

  lemma OnePortionMore(n: nat, time: nat)
    requires n > 0
    ensures n * time == time + (n - 1) * time && (n - 1) * time >= 0
  {
  }

  lemma PortionDealt(c: Condition, portions: seq<int>, time: Int32, clock: nat -> int) returns (next: Condition)
    requires c.ext.Damage? && time > 0 && 0 <= c.ticks < 0x8000_0000 - time && portions != []
    requires 0 < portions[0] < 0x8000_0000
    ensures next.ext.Damage? && next.ticks == c.ticks + time
    ensures Dealing(c, portions, time, clock) == Dealing(next, portions[1..], time, clock)
    ensures |next.ext.damageList| == |c.ext.damageList| + 1
    ensures ValueSum(next.ext.damageList) - Total(portions[1..]) == ValueSum(c.ext.damageList) - Total(portions)
  {
    var info := IntervalInfo(time, AsInt32(0 - portions[0]), time);
    next := WithInterval(c, info, clock(|portions|));
    SignedIdentity(0 - portions[0]);
    SignedIdentity(c.ticks + time);
    ValueSumAppend(c.ext.damageList, info);
  }

  lemma {:induction false} ValueSumAppend(list: seq<IntervalInfo>, info: IntervalInfo)
    ensures ValueSum(list + [info]) == ValueSum(list) + info.value
  {
    if list == [] {
    } else {
      ValueSumAppend(list[1..], info);
      assert (list + [info])[1..] == list[1..] + [info];
    }
  }

  /** The start value init uses is 0, so that nothing is dealt, exactly when one is set but the maximum is 0. */
  lemma StartIsPositive(start: Amount, maxDamage: Amount, amount: int)
    ensures StartOf(start, maxDamage, amount) > 0 <==> maxDamage > 0 || start == 0
  {
    DefaultStartIsAmount(amount);
  }

  /**
   * A damage condition that init fills lasts one interval for each portion. It has portions exactly when the amount
   * drawn is not 0 and no start is set where no damage is allowed; then its total damage is the amount, or 1 + .. +
   * start when that is more.
   */
  lemma InitDealsTheAmount(v: Condition, amount: Int32, startSet: Amount, time: Int32, now: int, clock: nat -> int,
                           minDamage: Amount, maxDamage: Amount)
    requires v.ext.Damage? && v.ext.damageList == [] && time > 0
    requires |PortionsOf(amount, StartOf(startSet, maxDamage, amount))| * time < 0x8000_0000
    requires StartOf(startSet, maxDamage, amount) < 0x8000_0000
    ensures var start := StartOf(startSet, maxDamage, amount);
            var d := Dealing(WithTicks(v, 0, now), PortionsOf(amount, start), time, clock);
            && d.ext.Damage?
            && d.ticks == |d.ext.damageList| * time
            && (d.ext.damageList != [] <==> amount != 0 && (maxDamage > 0 || startSet == 0))
            && (d.ext.damageList != [] ==>
                  TotalDamage(d.ext.damageList, minDamage, maxDamage) ==
                  if Abs(amount) >= Triangle(start) then Abs(amount) else Triangle(start))
  {
    hide *;
    var start := StartOf(startSet, maxDamage, amount);
    var portions := PortionsOf(amount, start);
    var c := WithTicks(v, 0, now);
    StartIsPositive(startSet, maxDamage, amount);
    FreshTicks(v, now);
    PortionsAre(amount, start);
    DealingLengthens(c, portions, time, clock);
    if portions != [] {
      TotalOfGenerate(amount, start);
      TotalOfDealt(Dealing(c, portions, time, clock).ext.damageList, Total(portions), minDamage, maxDamage);
    }
  }

  lemma FreshTicks(v: Condition, now: int)
    ensures WithTicks(v, 0, now).ext == v.ext && WithTicks(v, 0, now).ticks == 0 && ValueSum([]) == 0
  {
    SignedIdentity(0);
  }

  lemma PortionsAre(amount: int, start: int)
    requires 0 <= start < 0x8000_0000
    ensures forall p | p in PortionsOf(amount, start) :: 0 < p < 0x8000_0000
    ensures PortionsOf(amount, start) != [] <==> amount != 0 && start > 0
    ensures PortionsOf(amount, start) != [] ==> PortionsOf(amount, start) == Generate(amount, start)
  {
    FallsThroughEveryValue(amount, start);
    if amount != 0 && start > 0 {
      assert start in Generate(amount, start);
    }
  }

  lemma TotalOfDealt(list: seq<IntervalInfo>, total: nat, minDamage: Amount, maxDamage: Amount)
    requires list != [] && ValueSum(list) == 0 - total
    ensures TotalDamage(list, minDamage, maxDamage) == total
  {
  }
}
