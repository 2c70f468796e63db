/**
  Where two parts of the system must mean the same thing: offsets that one
  writes and the other expects, percentages that one parses and the other
  checks, records that one reads and the other prints, and the text on the wire.
*/
module CrossChecks {
  import opened Wrappers
  import opened NvidiaOffsets
  import ControlCommands
  import FanHardware
  import LightingPolicy
  import LightingStateText
  import Profile = ProfileSync
  import Text

  // -------------------------------------------------- offsets and profiles

  predicate AllAlike(snapshot: OffsetSnapshot) {
    snapshot != [] && forall s | s in snapshot ::
      s.core.currentMhz == snapshot[0].core.currentMhz && s.memory.currentMhz == snapshot[0].memory.currentMhz
  }

  /** What telemetry reports of a snapshot: one pair of offsets when all P-states
      have the same, and none otherwise. */
  function Reported(snapshot: OffsetSnapshot): Option<Profile.Offsets> {
    if AllAlike(snapshot) then Some(Profile.Offsets(snapshot[0].core.currentMhz, snapshot[0].memory.currentMhz, true))
    else None
  }

  /** Telemetry confirms a profile exactly when every P-state has its offsets. */
  lemma ConfirmedIff(snapshot: OffsetSnapshot, profile: Profile.Profile)
    ensures Profile.Synchronized(profile, Reported(snapshot)) == Some(true)
            <==> snapshot != [] && forall s | s in snapshot ::
                   (s.core.currentMhz, s.memory.currentMhz) == if profile.Turbo? then (100, 200) else (0, 0)
  {
    if snapshot != [] {
      assert snapshot[0] in snapshot;
    }
  }

  /** P-states with different offsets are neither confirmed nor contradicted: no
      pair is reported for them. */
  lemma UnevenIsUnread(snapshot: OffsetSnapshot, profile: Profile.Profile)
    ensures Profile.Synchronized(profile, Reported(snapshot)) == None
            <==> snapshot == [] || exists s, t | s in snapshot && t in snapshot ::
                   (s.core.currentMhz, s.memory.currentMhz) != (t.core.currentMhz, t.memory.currentMhz)
  {
    if snapshot != [] {
      assert snapshot[0] in snapshot;
    }
  }

  /** The offsets of a profile on every P-state. */
  ghost predicate Set(device: OffsetDevice, profile: Profile.Profile)
    requires device.Valid()
    reads device`values
  {
    forall s | s in device.states ::
      (device.values[Key(s, Core)], device.values[Key(s, Memory)]) == if profile.Turbo? then (100, 200) else (0, 0)
  }

  method SwitchOffsets(device: OffsetDevice, profile: Profile.Profile) returns (switched: bool)
    requires device.Valid()
    modifies device
    ensures device.Valid() && device.faults <= old(device.faults) && (switched ==> Set(device, profile))
    ensures old(device.faults) == 0 && device.authorized && device.InRange(Uniform(if profile.Turbo? then OEM_TURBO else RESET)) ==>
              switched
  {
    if profile.Turbo? {
      var transition, _, _ := device.ApplyOemTurbo();
      switched := transition.Success?;
    } else {
      var transition, _, _ := device.ResetOemOffsets();
      switched := transition.Success?;
    }
  }

  /** Writes the offsets of a profile and looks at them as telemetry does. When
      the transaction and the reading succeed, the profile is confirmed, and no
      profile of the other kind is. */
  method SwitchAndObserve(device: OffsetDevice, profile: Profile.Profile) returns (reported: Option<Profile.Offsets>)
    requires device.Valid() && device.states != []
    modifies device
    ensures reported.Some? ==>
              forall other: Profile.Profile ::
                Profile.Synchronized(other, reported) == Some(other.Turbo? <==> profile.Turbo?)
    ensures old(device.faults) == 0 && device.authorized && device.InRange(Uniform(if profile.Turbo? then OEM_TURBO else RESET)) ==>
              reported.Some?
  {
    var switched := SwitchOffsets(device, profile);
    if !switched {
      return None;
    }
    var snapshot := device.Snapshot();
    if snapshot.Failure? {
      return None;
    }
    reported := Reported(snapshot.value);
    ShownIsUniform(device, snapshot.value, if profile.Turbo? then 100 else 0, if profile.Turbo? then 200 else 0);
  }

  lemma ShownIsUniform(device: OffsetDevice, snapshot: OffsetSnapshot, core: int, memory: int)
    requires device.Valid() && device.states != [] && device.Describes(snapshot, device.values)
    requires forall s | s in device.states :: device.values[Key(s, Core)] == core && device.values[Key(s, Memory)] == memory
    ensures Reported(snapshot) == Some(Profile.Offsets(core, memory, true))
  {
    forall i | 0 <= i < |snapshot| ensures snapshot[i].core.currentMhz == core && snapshot[i].memory.currentMhz == memory {
      var s := snapshot[i];
      assert s in snapshot && s.state == device.states[i] && s.state in device.states;
      assert device.IsTrue(Key(s.state, Core), s.Reading(Core), device.values);
      assert device.IsTrue(Key(s.state, Memory), s.Reading(Memory), device.values);
    }
  }

  // ------------------------------------------------------ fans and keyboard

  /** Every percentage that the daemon accepts on the wire is one that the
      hardware accepts, and the other way round. */
  lemma PercentagesAgree(percent: u8)
    ensures ControlCommands.ParseManualPercent(ControlCommands.Decimals(percent)) == Some(percent)
            <==> FanHardware.ValidPercent(percent as nat)
    ensures forall text :: ControlCommands.ParseManualPercent(text) == Some(percent) ==> FanHardware.ValidPercent(percent as nat)
  {
    ControlCommands.U8RoundTrip(percent);
  }

  /** A record that the driver may read is one that the client shows. */
  lemma ReadableIsShown(flags: LightingPolicy.Flags, e: LightingPolicy.Effect, zones: (Text.Rgb, Text.Rgb, Text.Rgb, Text.Rgb))
    requires LightingPolicy.ReadValid(flags, e)
    ensures var state := LightingStateText.LightingState(
              e.brightness != 0, e.mode, e.speed, e.brightness, e.direction, (e.color.red, e.color.green, e.color.blue), zones);
            LightingStateText.Parse(LightingStateText.Encode(state)) == Some(LightingStateText.Show(state))
  {
    LightingStateText.RoundTripIff(LightingStateText.LightingState(
      e.brightness != 0, e.mode, e.speed, e.brightness, e.direction, (e.color.red, e.color.green, e.color.blue), zones));
  }

  // -------------------------------------------------------------- the wire

  lemma Numbers()
    ensures Text.Print(0, Text.Decimal) == "0" && Text.Print(40, Text.Decimal) == "40" && Text.Print(70, Text.Decimal) == "70"
    ensures Text.Print(100, Text.Decimal) == "100" && Text.Print(0xff, Text.Hexadecimal) == "ff"
    ensures Text.HexColor((0x0a, 0xff, 0x90)) == "0aff90"
  {
    assert Text.Print(4, Text.Decimal) == "4" && Text.Print(7, Text.Decimal) == "7" && Text.Print(1, Text.Decimal) == "1";
    assert Text.Print(10, Text.Decimal) == "10";
    assert Text.Print(15, Text.Hexadecimal) == "f";
  }

  lemma JoinOn(first: string, rest: seq<string>, joined: string)
    requires rest != [] && Text.Join(rest, ' ') == joined
    ensures Text.Join([first] + rest, ' ') == first + " " + joined
  {
    assert ([first] + rest)[1..] == rest;
  }

  lemma FanManualWords()
    ensures Text.Join(["FAN", "MANUAL", "40", "70"], ' ') == "FAN MANUAL 40 70"
  {
    JoinOn("40", ["70"], "70");
    JoinOn("MANUAL", ["40"] + ["70"], "40 70");
    JoinOn("FAN", ["MANUAL"] + (["40"] + ["70"]), "MANUAL 40 70");
    assert ["FAN"] + (["MANUAL"] + (["40"] + ["70"])) == ["FAN", "MANUAL", "40", "70"];
  }

  /** A command as it is written: the fan of the processor comes first. */
  lemma FanManualLine()
    ensures ControlCommands.Encode(ControlCommands.FanManual(40, 70)) == Some("FAN MANUAL 40 70")
    ensures ControlCommands.Parse("FAN MANUAL 40 70") == Some(ControlCommands.FanManual(40, 70))
  {
    assert ControlCommands.Fields(ControlCommands.FanManual(40, 70)) == ["FAN", "MANUAL", "40", "70"] by {
      Numbers();
    }
    FanManualWords();
    ControlCommands.ParseEncode(ControlCommands.FanManual(40, 70));
  }
}
