/** The parsers of `parse.c` for the connection data, over the byte cursor and the map they fill in. */
module PrespawnParse {
  import opened Bytes
  import opened NetMsg
  import opened EntityDelta
  import opened EntityCodec
  import opened PrespawnPages
  import opened PrespawnReader

  /** `ParseEntityState` over the state it finds. */
  method ParseEntityState(msg: NetMsg, e: Entity, ext: Ext) returns (r: Entity)
    requires msg.Valid()
    modifies msg`readpos
    ensures msg.Valid() && (r, msg.Rest()) == GetState(e, ext, old(msg.Rest()))
  {
    hide GetByte, GetCoordIf, GetAngleIf;
    var model := msg.ReadByte();
    var frame := msg.ReadByte();
    var colormap := msg.ReadByte();
    var skin := msg.ReadByte();
    var o1 := ReadCoordIf(msg, true, 0, ext);
    var a1 := ReadAngleIf(msg, true, 0, ext);
    var o2 := ReadCoordIf(msg, true, 0, ext);
    var a2 := ReadAngleIf(msg, true, 0, ext);
    var o3 := ReadCoordIf(msg, true, 0, ext);
    var a3 := ReadAngleIf(msg, true, 0, ext);
    r := e.(modelindex := model, frame := frame, colormap := colormap, skinnum := skin,
            origin := Vec(o1, o2, o3), angles := Vec(a1, a2, a3));
  }

  /** A forced delta against nothing. */
  method ParseWhole(msg: NetMsg, ext: Ext) returns (entnum: nat, e: Entity)
    requires msg.Valid()
    modifies msg`readpos
    ensures msg.Valid() && (entnum, e, msg.Rest()) == GetWhole(ext, old(msg.Rest()))
  {
    hide GetHeader, GetBody;
    var f;
    entnum, f := ReadEntityNum(msg);
    e := ParseEntityDelta(msg, NULL_ENTITY, f, ext);
  }

  class TvMap {
    var players: seq<Player>
    var baselines: seq<Entity>
    var lightstyles: seq<seq<byte>>
    var sounds: seq<Sound>
    var soundCount: nat
    var statics: seq<Entity>
    var staticCount: nat

    ghost function State(): World
      reads this
    {
      World(players, baselines, lightstyles, sounds, soundCount, statics, staticCount)
    }

    ghost predicate Valid()
      reads this
    {
      ValidWorld(State())
    }

    method ParseUpdateUserinfo(msg: NetMsg)
      requires Valid() && msg.Valid()
      modifies this`players, msg`readpos
      ensures Valid() && msg.Valid() && (State(), msg.Rest()) == TakeUserinfo(old(State()), old(msg.Rest()))
    {
      hide GetByte, GetLong, GetString, SkipString;
      var pnum := msg.ReadByte();
      var userid := msg.ReadLong();
      if pnum < MAX_CLIENTS {
        var userinfo := msg.ReadString(USERINFO_ROOM);
        players := players[pnum := players[pnum].(userinfo := userinfo)];
      } else {
        msg.SkipToEnd();
      }
    }

    method ParseUpdateFrags(msg: NetMsg)
      requires Valid() && msg.Valid()
      modifies this`players, msg`readpos
      ensures Valid() && msg.Valid() && (State(), msg.Rest()) == TakeFrags(old(State()), old(msg.Rest()))
    {
      hide GetByte, GetShort;
      var pnum := msg.ReadByte();
      var frags := msg.ReadShort();
      if pnum < MAX_CLIENTS {
        players := players[pnum := players[pnum].(frags := frags)];
      }
    }

    method ParseUpdatePing(msg: NetMsg)
      requires Valid() && msg.Valid()
      modifies this`players, msg`readpos
      ensures Valid() && msg.Valid() && (State(), msg.Rest()) == TakePing(old(State()), old(msg.Rest()))
    {
      hide GetByte, GetShort;
      var pnum := msg.ReadByte();
      var ping := msg.ReadShort();
      if pnum < MAX_CLIENTS {
        players := players[pnum := players[pnum].(ping := ping)];
      }
    }

    method ParsePacketloss(msg: NetMsg)
      requires Valid() && msg.Valid()
      modifies this`players, msg`readpos
      ensures Valid() && msg.Valid() && (State(), msg.Rest()) == TakeLoss(old(State()), old(msg.Rest()))
    {
      hide GetByte;
      var pnum: int := msg.ReadByte();
      var value := msg.ReadByte();
      pnum := pnum % MAX_CLIENTS;
      players := players[pnum := players[pnum].(packetloss := value)];
    }

    method ParseLightstyle(msg: NetMsg)
      requires Valid() && msg.Valid()
      modifies this`lightstyles, msg`readpos
      ensures Valid() && msg.Valid() && (State(), msg.Rest()) == TakeLightstyle(old(State()), old(msg.Rest()))
    {
      hide GetByte, GetString, SkipString;
      var style := msg.ReadByte();
      if style < MAX_LIGHTSTYLES {
        var name := msg.ReadString(STYLE_ROOM);
        lightstyles := lightstyles[style := name];
      } else {
        msg.SkipToEnd();
      }
    }

    method ParseBaseline(msg: NetMsg, ext: Ext, delta: bool)
      requires Valid() && msg.Valid()
      modifies this`baselines, msg`readpos
      ensures Valid() && msg.Valid()
      ensures (State(), msg.Rest()) == TakeBaseline(old(State()), ext, old(msg.Rest()), delta)
    {
      hide GetShort, GetWhole, GetState;
      var entnum: nat;
      var e: Entity;
      if delta {
        entnum, e := ParseWhole(msg, ext);
      } else {
        entnum := msg.ReadShort();
      }
      if entnum >= MAX_ENTITIES {
        msg.readpos := msg.cursize + 1;
        return;
      }
      if !delta {
        e := ParseEntityState(msg, baselines[entnum], ext);
      }
      baselines := baselines[entnum := e];
    }

    method ParseStaticSound(msg: NetMsg, ext: Ext)
      requires Valid() && msg.Valid()
      modifies this`sounds, this`soundCount, msg`readpos
      ensures Valid() && msg.Valid() && (State(), msg.Rest()) == TakeSound(old(State()), ext, old(msg.Rest()))
    {
      hide GetByte, GetCoordIf;
      if soundCount == MAX_STATICSOUNDS {
        soundCount := soundCount - 1;
      }
      var x := ReadCoordIf(msg, true, 0, ext);
      var y := ReadCoordIf(msg, true, 0, ext);
      var z := ReadCoordIf(msg, true, 0, ext);
      var soundindex := msg.ReadByte();
      var volume := msg.ReadByte();
      var attenuation := msg.ReadByte();
      sounds := sounds[soundCount := Sound(Vec(x, y, z), soundindex, volume, attenuation)];
      soundCount := soundCount + 1;
    }

    method ParseSpawnStatic(msg: NetMsg, ext: Ext, delta: bool)
      requires Valid() && msg.Valid()
      modifies this`statics, this`staticCount, msg`readpos
      ensures Valid() && msg.Valid()
      ensures (State(), msg.Rest()) == TakeStatic(old(State()), ext, old(msg.Rest()), delta)
    {
      hide GetWhole, GetState;
      if staticCount == MAX_STATICENTITIES {
        staticCount := staticCount - 1;
      }
      var e: Entity;
      if delta {
        var entnum;
        entnum, e := ParseWhole(msg, ext);
      } else {
        e := ParseEntityState(msg, statics[staticCount], ext);
      }
      statics := statics[staticCount := e];
      staticCount := staticCount + 1;
    }

    /** One case of the switch; the service byte is one of the connection data's. */
    method ParseOne(msg: NetMsg, spawnstatic2: bool, ext: Ext)
      requires Valid() && msg.Valid() && Ready(spawnstatic2, msg.Rest())
      modifies this, msg`readpos
      ensures Valid() && msg.Valid()
      ensures (State(), msg.Rest()) == TakeMessage(old(State()), spawnstatic2, ext, old(msg.Rest()))
    {
      hide TakeUserinfo, TakeFrags, TakePing, TakeLoss, TakeLightstyle, TakeBaseline, TakeSound, TakeStatic;
      var svc := msg.ReadByte();
      match svc
      case 40 => ParseUpdateUserinfo(msg);
      case 14 => ParseUpdateFrags(msg);
      case 36 => ParseUpdatePing(msg);
      case 53 => ParsePacketloss(msg);
      case 12 => ParseLightstyle(msg);
      case 22 => ParseBaseline(msg, ext, false);
      case 66 => ParseBaseline(msg, ext, true);
      case 29 => ParseStaticSound(msg, ext);
      case 20 => ParseSpawnStatic(msg, ext, false);
      case _ => ParseSpawnStatic(msg, ext, true);
    }

    /** `ParseMessage`, up to the first message of another kind. */
    method ParseMessage(msg: NetMsg, spawnstatic2: bool, ext: Ext)
      requires Valid() && msg.Valid()
      modifies this, msg`readpos
      ensures Valid() && msg.Valid()
      ensures State() == Parsed(old(State()), spawnstatic2, ext, old(msg.Rest()))
    {
      hide TakeMessage;
      while msg.readpos < msg.cursize
        invariant Valid() && msg.Valid()
        invariant Parsed(old(State()), spawnstatic2, ext, old(msg.Rest()))
               == Parsed(State(), spawnstatic2, ext, msg.Rest())
        decreases |msg.Rest().rest|
      {
        if !Handled(msg.data[msg.readpos], spawnstatic2) {
          return;
        }
        MessageShrinks(State(), spawnstatic2, ext, msg.Rest());
        ParseOne(msg, spawnstatic2, ext);
      }
    }
  }
}
