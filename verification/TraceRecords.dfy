/** The record buffer the encoder fills and the reader that walks a record, as the code runs them. */
module TraceRecords {
  import opened Options
  import opened Frames
  import opened Bytes
  import opened TraceCodec
  import opened TraceDecode

  lemma OneMoreDouble(before: seq<Byte>, values: seq<U64>, i: nat)
    requires i < |values|
    ensures before + LEs(values[..i]) + LE(values[i], 8) == before + LEs(values[..i + 1])
  {
    hide LE, LEs;
    assert values[..i + 1] == values[..i] + [values[i]];
    LEsAppend(values[..i], values[i]);
  }

  /** trace_record_t: a fixed buffer and the length written so far. */
  class TraceRecord {
    const bytes: array<Byte>
    var length: nat

    ghost predicate Valid()
      reads this, bytes
    {
      bytes.Length == CAPACITY && length <= CAPACITY
    }

    ghost function Contents(): seq<Byte>
      requires Valid()
      reads this, bytes
    {
      bytes[..length]
    }

    constructor ()
      ensures Valid() && Contents() == [] && fresh(bytes)
    {
      bytes := new Byte[CAPACITY](_ => 0);
      length := 0;
    }

    method PutWord(value: nat, size: nat)
      requires Valid() && length + size <= CAPACITY
      modifies this`length, bytes
      ensures Valid() && Contents() == old(Contents()) + LE(value, size)
    {
      ghost var before := Contents();
      var i := 0;
      while i < size
        invariant i <= size && Valid() && length == |before| + i
        invariant Contents() == before + LE(value, size)[..i]
      {
        LEIndex(value, size, i);
        bytes[length] := ShiftBytes(value, i) % 256;
        length := length + 1;
        assert LE(value, size)[..i + 1] == LE(value, size)[..i] + [LE(value, size)[i]];
        i := i + 1;
      }
      assert LE(value, size)[..i] == LE(value, size);
    }

    method PutU32(value: U32)
      requires Valid() && length + 4 <= CAPACITY
      modifies this`length, bytes
      ensures Valid() && Contents() == old(Contents()) + Encode(Word(value))
    {
      PutWord(value, 4);
    }

    method PutU64(value: U64)
      requires Valid() && length + 8 <= CAPACITY
      modifies this`length, bytes
      ensures Valid() && Contents() == old(Contents()) + Encode(Long(value))
    {
      PutWord(value, 8);
    }

    method PutDoubles(values: seq<U64>)
      requires Valid() && length + 8 * |values| <= CAPACITY
      modifies this`length, bytes
      ensures Valid() && Contents() == old(Contents()) + Encode(Doubles(values))
    {
      ghost var before := Contents();
      assert before + LEs(values[..0]) == before;
      hide LE, LEs;
      for i := 0 to |values|
        invariant Valid() && Contents() == before + LEs(values[..i])
      {
        PutWord(values[i], 8);
        OneMoreDouble(before, values, i);
      }
      assert values[..|values|] == values;
    }

    /** The memcpy of the label. */
    method PutBytes(text: seq<Byte>)
      requires Valid() && length + |text| <= CAPACITY
      modifies this`length, bytes
      ensures Valid() && Contents() == old(Contents()) + Encode(Text(text))
    {
      forall i | 0 <= i < |text| {
        bytes[length + i] := text[i];
      }
      length := length + |text|;
    }

    /** One put call. */
    method Put(field: Field)
      requires Valid() && length + Size(FormatOf(field)) <= CAPACITY
      modifies this`length, bytes
      ensures Valid() && Contents() == old(Contents()) + Encode(field)
    {
      match field
      case Word(value) => PutU32(value);
      case Long(value) => PutU64(value);
      case Doubles(values) => PutDoubles(values);
      case Text(text) => PutBytes(text);
    }

    /** A run of put calls. */
    method PutAll(fields: seq<Field>)
      requires Valid() && length + |EncodeAll(fields)| <= CAPACITY
      modifies this`length, bytes
      ensures Valid() && Contents() == old(Contents()) + EncodeAll(fields)
    {
      hide Encode;
      ghost var before := Contents();
      assert fields[..0] == [] && before + [] == before;
      for i := 0 to |fields|
        invariant Valid() && Contents() == before + EncodeAll(fields[..i])
      {
        Prefix(fields, i);
        Put(fields[i]);
        assert before + EncodeAll(fields[..i]) + Encode(fields[i]) == before + EncodeAll(fields[..i + 1]);
      }
      assert fields[..|fields|] == fields;
    }

    /** simulith_control_trace_tick up to the lock: the record of one tick, never outside the buffer. */
    method EncodeRecord(t: Tick)
      requires Valid() && length == 0 && ValidTick(t)
      modifies this`length, bytes
      ensures Valid() && Contents() == EncodeTick(t) && length <= 7900
    {
      hide EncodeAll, Encode, StateFields, BodyFields, HeadFields, CommandsFields, ValidState;
      RecordSize(t);
      PreambleSize(t);
      EncodeAllConcat(PreambleFields(t), CommandsFields(t.commands));
      PutAll(PreambleFields(t));
      assert Contents() == EncodeAll(PreambleFields(t));
      PutCommands(t.commands);
    }

    method PutCommands(commands: seq<Command>)
      requires Valid() && length + |EncodeAll(CommandsFields(commands))| <= CAPACITY
      requires forall k :: 0 <= k < |commands| ==> ValidCommand(commands[k])
      modifies this`length, bytes
      ensures Valid() && Contents() == old(Contents()) + EncodeAll(CommandsFields(commands))
    {
      hide Encode, EncodeAll, HeadFields, BodyFields;
      ghost var before, whole := Contents(), EncodeAll(CommandsFields(commands));
      assert commands[0..] == commands;
      NoCommands();
      ghost var sent: seq<Byte> := [];
      for i := 0 to |commands|
        invariant Valid() && Contents() == before + sent
        invariant whole == sent + EncodeAll(CommandsFields(commands[i..]))
      {
        var fields := HeadFields(commands[i]) + BodyFields(commands[i]);
        assert commands[i..][0] == commands[i] && commands[i..][1..] == commands[i + 1..];
        EncodeAllConcat(fields, CommandsFields(commands[i + 1..]));
        assert whole == (sent + EncodeAll(fields)) + EncodeAll(CommandsFields(commands[i + 1..]));
        PutAll(fields);
        assert Contents() == before + (sent + EncodeAll(fields));
        sent := sent + EncodeAll(fields);
      }
      assert commands[|commands|..] == [];
    }
  }

  lemma NoCommands()
    ensures EncodeAll(CommandsFields([])) == []
  {
  }

  lemma Prefix(fields: seq<Field>, i: nat)
    requires i < |fields|
    ensures EncodeAll(fields[..i + 1]) == EncodeAll(fields[..i]) + Encode(fields[i])
    ensures |EncodeAll(fields[..i + 1])| <= |EncodeAll(fields)|
  {
    assert fields[..i + 1] == fields[..i] + [fields[i]];
    EncodeAllConcat(fields[..i], [fields[i]]);
    assert EncodeAll([fields[i]]) == Encode(fields[i]) + EncodeAll([]);
    assert fields == fields[..i + 1] + fields[i + 1..];
    EncodeAllConcat(fields[..i + 1], fields[i + 1..]);
  }

  /** RecordReader: the data and the offset its takes advance. */
  class RecordReader {
    const data: seq<Byte>
    var offset: nat

    constructor (data: seq<Byte>)
      ensures this.data == data && offset == 0
    {
      this.data, offset := data, 0;
    }

    /** take(fmt), or None for the struct.error of data that is too short. */
    method Take(fmt: Format) returns (field: Option<Field>)
      modifies this`offset
      ensures field.Some? <==> old(offset) + Size(fmt) <= |data|
      ensures field.Some? ==> offset == old(offset) + Size(fmt) && field.value == Decode(fmt, data[old(offset)..offset])
    {
      if offset + Size(fmt) > |data| {
        return None;
      }
      field := Some(Decode(fmt, data[offset..offset + Size(fmt)]));
      offset := offset + Size(fmt);
    }

    /** Consecutive takes. */
    method TakeAll(fmts: seq<Format>) returns (fields: Option<seq<Field>>)
      modifies this`offset
      ensures fields.Some? <==> ReadAll(fmts, data, old(offset)).Some?
      ensures fields.Some? ==> (fields.value, offset) == ReadAll(fmts, data, old(offset)).value
    {
      hide Decode;
      var taken: seq<Field> := [];
      ghost var all := ReadAll(fmts, data, offset);
      assert fmts[0..] == fmts;
      var i := 0;
      while i < |fmts|
        invariant i <= |fmts|
        invariant all.Some? <==> ReadAll(fmts[i..], data, offset).Some?
        invariant all.Some? ==> all.value.0 == taken + ReadAll(fmts[i..], data, offset).value.0
        invariant all.Some? ==> all.value.1 == ReadAll(fmts[i..], data, offset).value.1
      {
        assert fmts[i..][0] == fmts[i] && fmts[i..][1..] == fmts[i + 1..];
        ghost var from, before := offset, taken;
        var field := Take(fmts[i]);
        if field.None? {
          return None;
        }
        ghost var rest := ReadAll(fmts[i + 1..], data, offset);
        assert rest.Some? ==> before + ([field.value] + rest.value.0) == (before + [field.value]) + rest.value.0;
        taken := taken + [field.value];
        i := i + 1;
      }
      assert fmts[i..] == [] && taken + [] == taken;
      return Some(taken);
    }

    /** read_command. */
    method TakeCommand() returns (command: Result<CommandView>)
      modifies this`offset
      ensures match ReadCommand(data, old(offset))
              case Ok((view, end)) => command == Ok(view) && offset == end
              case Err(e) => command == Err(e)
    {
      hide ReadAll, BodyFrom;
      var head := TakeAll(HEAD_FORMATS);
      if head.None? {
        return Err(TooShort);
      }
      var kind := head.value[0].word;
      var body := TakeAll(BodyFormats(kind));
      if body.None? {
        return Err(TooShort);
      }
      if !Known(kind) {
        return Err(UnknownKind);
      }
      return Ok(CommandView(kind, head.value[1].word, head.value[2].word, BodyFrom(kind, body.value)));
    }

    method TakeCommands(count: nat) returns (r: Result<seq<CommandView>>)
      modifies this`offset
      ensures match ReadCommands(data, old(offset), count)
              case Ok((views, end)) => r == Ok(views) && offset == end
              case Err(e) => r == Err(e)
    {
      hide ReadCommand;
      var commands: seq<CommandView> := [];
      ghost var all := ReadCommands(data, offset, count);
      assert all.Ok? ==> [] + all.value.0 == all.value.0;
      while |commands| < count
        invariant |commands| <= count
        invariant var rest := ReadCommands(data, offset, count - |commands|);
                  if all.Err? then rest == Err(all.error)
                  else rest.Ok? && all.value == (commands + rest.value.0, rest.value.1)
      {
        ghost var before := commands;
        var command := TakeCommand();
        if command.Err? {
          return Err(command.error);
        }
        commands := commands + [command.value];
        ghost var rest := ReadCommands(data, offset, count - |commands|);
        assert rest.Ok? ==> before + ([command.value] + rest.value.0) == commands + rest.value.0;
      }
      assert commands + [] == commands;
      return Ok(commands);
    }

    /** One record: the loop body of records. */
    method TakeTick() returns (tick: Result<TickView>)
      requires offset == 0
      modifies this`offset
      ensures tick == DecodeTick(data)
    {
      hide ReadAll, ReadCommands, PreambleFrom;
      var fields := TakeAll(PREAMBLE_FORMATS);
      if fields.None? {
        return Err(TooShort);
      }
      var (sequence, timeNs, state, count) := PreambleFrom(fields.value);
      if count > MAX_COMMANDS {
        return Err(TooManyCommands);
      }
      var commands := TakeCommands(count);
      if commands.Err? {
        return Err(commands.error);
      }
      if offset != |data| {
        return Err(UnexpectedBytes);
      }
      return Ok(TickView(sequence, timeNs, state, commands.value));
    }
  }
}
