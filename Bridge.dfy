/**
 * The Modbus bridge: it polls a field device through a requester handle and
 * serves a supervisory host through a responder handle, and keeps the two
 * in step. One iteration of each worker loop is a method here; the threads,
 * locks and sleeps around them are not modelled.
 */
module Bridge {
  import opened Support
  import opened Registers
  import opened Connection
  import opened Transport

  /** The register definitions as loaded: the register classes defined and the `CONNECTION` value. */
  datatype Catalog = Catalog(registers: Definitions, connection: Option<Config>)

  /** The result of an operation that may raise. */
  datatype Outcome = Done | Raised(error: BridgeError)

  class ModbusBridge {
    var registerDefinitions: Catalog
    var connectionSettingsHost: Config
    var connectionSettingsClient: Config
    /** Unit (slave address) of the field device, used for every requester call. */
    var clientUnit: int
    /** Unit under which the host is served. */
    var hostUnit: int
    /** The requester that polls the field device. */
    const host: Requester
    /** The responder that serves the host. */
    const client: Responder

    /** The collector's run flag (its lock being held). */
    var collectLock: bool
    /** How many collector threads have been started. */
    var collectorThreads: nat
    /** The snapshot slot the collector publishes into. */
    var clientDataMsg: Snapshot
    /** The last non-empty snapshot taken from the slot. */
    var clientData: Snapshot

    /** The provisioner's run flag (its lock being held). */
    var provisionLock: bool
    /** How many provisioner threads have been started. */
    var provisionerThreads: nat

    /**
     * What loading the connection settings at construction gave: `Raised`
     * stands for `__init__` raising, after which the source has no bridge.
     */
    var setupOutcome: Outcome

    /**
     * Starts from empty settings, units 0, both workers stopped and an empty
     * snapshot slot, then loads the connection settings from the register
     * definitions: one side's settings and unit are adopted exactly as
     * `ExtractConnection` selects, and `setupOutcome` records its error.
     */
    constructor (definitions: Catalog, host: Requester, client: Responder)
      ensures registerDefinitions == definitions && this.host == host && this.client == client
      ensures var o := ExtractConnection(definitions.connection);
        && setupOutcome == (if o.Rejected? then Raised(o.error) else Done)
        && connectionSettingsClient == (if o.AdoptClient? then o.settings else map[])
        && clientUnit == (if o.AdoptClient? then o.unit else 0)
        && connectionSettingsHost == (if o.AdoptHost? then o.settings else map[])
        && hostUnit == (if o.AdoptHost? then o.unit else 0)
      ensures !collectLock && collectorThreads == 0 && !provisionLock && provisionerThreads == 0
      ensures clientDataMsg == map[] && clientData == map[]
    {
      registerDefinitions := definitions;
      connectionSettingsHost, connectionSettingsClient := map[], map[];
      clientUnit, hostUnit := 0, 0;
      this.host := host;
      this.client := client;
      collectLock, collectorThreads := false, 0;
      clientDataMsg, clientData := map[], map[];
      provisionLock, provisionerThreads := false, 0;
      setupOutcome := Done;
      new;
      setupOutcome := LoadConnectionSettings();
    }

    // ------------------------------------------------------------ setters

    /** Sets the client unit; anything but an integer is refused and the unit stays. */
    method SetClientUnit(v: ConfigValue) returns (r: Outcome)
      modifies this`clientUnit
      ensures r == (if IsInt(v) then Done else Raised(ClientUnitNotInt))
      ensures clientUnit == (if IsInt(v) then IntOf(v) else old(clientUnit))
    {
      if IsInt(v) {
        clientUnit := IntOf(v);
        r := Done;
      } else {
        r := Raised(ClientUnitNotInt);
      }
    }

    /** Sets the host unit; anything but an integer is refused and the unit stays. */
    method SetHostUnit(v: ConfigValue) returns (r: Outcome)
      modifies this`hostUnit
      ensures r == (if IsInt(v) then Done else Raised(HostUnitNotInt))
      ensures hostUnit == (if IsInt(v) then IntOf(v) else old(hostUnit))
    {
      if IsInt(v) {
        hostUnit := IntOf(v);
        r := Done;
      } else {
        r := Raised(HostUnitNotInt);
      }
    }

    /**
     * Adopts a non-empty block as client settings and, when its `unit` is
     * truthy, also as client unit. The settings are replaced before the unit
     * is checked, so a bad unit raises after the settings changed.
     */
    method SetConnectionSettingsClient(val: Config) returns (r: Outcome)
      modifies this`connectionSettingsClient, this`clientUnit
      ensures connectionSettingsClient == (if val != map[] then val else old(connectionSettingsClient))
      ensures r.Raised? <==> val != map[] && "unit" in val && Truthy(val["unit"]) && !IsInt(val["unit"])
      ensures r.Raised? ==> r.error == ClientUnitNotInt
      ensures clientUnit ==
        if val != map[] && "unit" in val && Truthy(val["unit"]) && IsInt(val["unit"])
        then IntOf(val["unit"]) else old(clientUnit)
    {
      r := Done;
      if val != map[] {
        connectionSettingsClient := val;
        if "unit" in val && Truthy(val["unit"]) {
          r := SetClientUnit(val["unit"]);
        }
      }
    }

    /** The host-side counterpart of `SetConnectionSettingsClient`. */
    method SetConnectionSettingsHost(val: Config) returns (r: Outcome)
      modifies this`connectionSettingsHost, this`hostUnit
      ensures connectionSettingsHost == (if val != map[] then val else old(connectionSettingsHost))
      ensures r.Raised? <==> val != map[] && "unit" in val && Truthy(val["unit"]) && !IsInt(val["unit"])
      ensures r.Raised? ==> r.error == HostUnitNotInt
      ensures hostUnit ==
        if val != map[] && "unit" in val && Truthy(val["unit"]) && IsInt(val["unit"])
        then IntOf(val["unit"]) else old(hostUnit)
    {
      r := Done;
      if val != map[] {
        connectionSettingsHost := val;
        if "unit" in val && Truthy(val["unit"]) {
          r := SetHostUnit(val["unit"]);
        }
      }
    }

    /**
     * Loads the connection settings from the register definitions: the
     * settings of exactly one side change, as `ExtractConnection` decides,
     * or nothing changes (a warning, or an error).
     */
    method LoadConnectionSettings() returns (r: Outcome)
      modifies this`connectionSettingsHost, this`connectionSettingsClient, this`clientUnit, this`hostUnit
      ensures var o := ExtractConnection(registerDefinitions.connection);
        && r == (if o.Rejected? then Raised(o.error) else Done)
        && connectionSettingsClient == (if o.AdoptClient? then o.settings else old(connectionSettingsClient))
        && clientUnit == (if o.AdoptClient? then o.unit else old(clientUnit))
        && connectionSettingsHost == (if o.AdoptHost? then o.settings else old(connectionSettingsHost))
        && hostUnit == (if o.AdoptHost? then o.unit else old(hostUnit))
    {
      var connection := registerDefinitions.connection;
      if connection.None? || connection.value == map[] {
        // warning: no CONNECTION key
        return Done;
      }
      var cfg := connection.value;
      if !HasRequiredKeys(cfg) {
        // warning: missing connection keys
        return Done;
      }
      var connType := LowerOf(cfg, "type");
      if connType.None? {
        return Raised(NotText("type"));
      }
      if connType.value == "rtu" {
        if "baudrate" !in cfg {
          return Raised(MissingBaudrate);
        }
      } else if connType.value != "tcp" {
        return Raised(UnknownConnectionType(connType.value));
      }
      var unit := cfg["unit"];
      if !IsInt(unit) {
        return Raised(UnknownConnectionUnit);
      }
      var mode := LowerOf(cfg, "mode");
      if mode.None? {
        return Raised(NotText("mode"));
      }
      if mode.value == "slave" {
        var set1 := SetConnectionSettingsClient(cfg);
        var set2 := SetClientUnit(unit);
        r := Done;
      } else if mode.value == "master" {
        var set1 := SetConnectionSettingsHost(cfg);
        var set2 := SetHostUnit(unit);
        r := Done;
      } else {
        r := Raised(UnknownConnectionMode(mode.value));
      }
    }

    // ---------------------------------------------------------- run flags

    /** Whether the collector is running: its lock is held. */
    function CollectingClientData(): bool
      reads this
    {
      collectLock
    }

    /**
     * Starts or stops the collector. Starting while running and stopping
     * while stopped change nothing; afterwards the flag equals `value`, and
     * a thread is started only on a real start.
     */
    method SetCollectingClientData(value: bool)
      modifies this`collectLock, this`collectorThreads
      ensures CollectingClientData() == value
      ensures collectorThreads == old(collectorThreads) + (if value && !old(collectLock) then 1 else 0)
    {
      if value && !collectLock {
        collectLock := true;
        collectorThreads := collectorThreads + 1;
      } else if !value && collectLock {
        collectLock := false;
      }
    }

    /** Whether the provisioner is running: its lock is held. */
    function ProvisioningHostData(): bool
      reads this
    {
      provisionLock
    }

    /** Starts or stops the provisioner, with the same idempotence as the collector. */
    method SetProvisioningHostData(value: bool)
      modifies this`provisionLock, this`provisionerThreads
      ensures ProvisioningHostData() == value
      ensures provisionerThreads == old(provisionerThreads) + (if value && !old(provisionLock) then 1 else 0)
    {
      if value && !provisionLock {
        provisionLock := true;
        provisionerThreads := provisionerThreads + 1;
      } else if !value && provisionLock {
        provisionLock := false;
      }
    }

    // ----------------------------------------------------- snapshot slot

    /** Takes the latest snapshot from the slot, keeping the previous one if the slot is empty. */
    method ClientData() returns (d: Snapshot)
      modifies this`clientData
      ensures clientData == KeepLatest(old(clientData), clientDataMsg)
      ensures d == clientData
    {
      var published := clientDataMsg;
      if published != map[] {
        clientData := published;
      }
      d := clientData;
    }

    // -------------------------------------------------------------- reads

    /**
     * Reads every defined register of class `c` from the field device: a
     * register whose read raised is left out and the loop goes on; one
     * value is stored as a scalar, any other number as a list.
     */
    method ReadRegisters(c: RegClass) returns (content: map<string, Entry>)
      requires c in registerDefinitions.registers
      ensures content == ReadClass(host, clientUnit, c, registerDefinitions.registers[c])
    {
      var defs := registerDefinitions.registers[c];
      var unit := clientUnit;
      content := map[];
      var todo := defs.Keys;
      while todo != {}
        invariant todo <= defs.Keys
        invariant content == ReadClass(host, unit, c, defs - todo)
        decreases todo
      {
        var key :| key in todo;
        var d := defs[key];
        var reply := host.read(c, unit, d.register, d.len);
        ghost var before := defs - todo;
        match reply {
          case Values(vs) =>
            content := content[key := Entry(d.register, Some(Shaped(vs)))];
          case ReadRaised =>
        }
        todo := todo - {key};
        assert defs - todo == before[key := d];
      }
      assert defs - todo == defs;
    }

    /** One read pass: a result for each class the definitions contain, and only for those. */
    method ReadAllRegisters() returns (content: Snapshot)
      ensures content == Collected(host, clientUnit, registerDefinitions.registers)
    {
      var regs := registerDefinitions.registers;
      content := map[];
      if Coils in regs {
        var coils := ReadRegisters(Coils);
        content := content[Coils := coils];
      }
      if Hregs in regs {
        var hregs := ReadRegisters(Hregs);
        content := content[Hregs := hregs];
      }
      if Ists in regs {
        var ists := ReadRegisters(Ists);
        content := content[Ists := ists];
      }
      if Iregs in regs {
        var iregs := ReadRegisters(Iregs);
        content := content[Iregs := iregs];
      }
      CollectedUnrolled(host, clientUnit, regs);
    }

    // ------------------------------------------------------------- writes

    /**
     * Writes a batch of coils (function code 05) or holding registers
     * (function code 06) and splits it: an entry is successful iff the
     * transport returned a truthy status, failed if it returned a falsy one
     * or raised.
     */
    method WriteRegisters(c: RegClass, batch: map<int, Change>) returns (failed: map<int, Change>, succ: map<int, Change>)
      requires Writable(c)
      ensures failed == Failed(host, clientUnit, c, batch)
      ensures succ == Succeeded(host, clientUnit, c, batch)
    {
      var unit := clientUnit;
      failed, succ := map[], map[];
      var todo := batch.Keys;
      while todo != {}
        invariant todo <= batch.Keys
        invariant failed == Failed(host, unit, c, batch - todo)
        invariant succ == Succeeded(host, unit, c, batch - todo)
        decreases todo
      {
        HasMember(todo);
        var a :| a in todo;
        var ch := batch[a];
        var reply := if c == Coils then host.writeCoil(unit, a, CoilWord(ch.val))
                     else host.writeRegister(unit, a, ch.val);
        var status := false;
        if reply.Acked? {
          status := reply.truthy;
        }
        ghost var before := batch - todo;
        if status {
          succ := succ[a := ch];
        } else {
          failed := failed[a := ch];
        }
        todo := todo - {a};
        assert batch - todo == before[a := ch];
      }
      assert batch - todo == batch;
    }

    /**
     * Writes the coils and holding registers of `regs`, never the read-only
     * classes, and reports a class in either result only when its part is
     * non-empty.
     */
    method WriteAllRegisters(regs: Ledger) returns (failed: Ledger, succ: Ledger)
      ensures failed == PushFailed(host, clientUnit, regs)
      ensures succ == PushedOk(host, clientUnit, regs)
    {
      failed, succ := map[], map[];
      if Coils in regs {
        var failedCoils, successfulCoils := WriteRegisters(Coils, regs[Coils]);
        failed := Record(failed, Coils, failedCoils);
        succ := Record(succ, Coils, successfulCoils);
      }
      if Hregs in regs {
        var failedHregs, successfulHregs := WriteRegisters(Hregs, regs[Hregs]);
        failed := Record(failed, Hregs, failedHregs);
        succ := Record(succ, Hregs, successfulHregs);
      }
      // input statuses and input registers can only be read: skipped
      PushFailedUnrolled(host, clientUnit, regs);
      PushedOkUnrolled(host, clientUnit, regs);
    }

    // ----------------------------------------------------------- sync step

    /**
     * Asks the responder to drop every entry of `succ`, each by the
     * timestamp recorded in it. Since `succ` is part of the current ledger,
     * every removal finds its entry.
     */
    method RemoveSuccessful(succ: Ledger)
      requires forall c, a :: c in succ && a in succ[c] ==>
        c in client.changed && a in client.changed[c] && client.changed[c][a] == succ[c][a]
      modifies client
      ensures client.changed == Drop(old(client.changed), Pairs(succ))
      ensures client.image == old(client.image)
    {
      ghost var l0 := client.changed;
      ghost var done: set<(RegClass, int)> := {};
      DropNothing(l0);
      var classes := succ.Keys;
      while classes != {}
        invariant classes <= succ.Keys
        invariant forall c, a :: (c, a) in done <==> c in succ && c !in classes && a in succ[c]
        invariant client.changed == Drop(l0, done)
        invariant client.image == old(client.image)
        decreases classes
      {
        var c :| c in classes;
        var batch := succ[c];
        var addrs := batch.Keys;
        while addrs != {}
          invariant addrs <= batch.Keys
          invariant forall c', a :: (c', a) in done <==>
            c' in succ && a in succ[c'] && (c' !in classes || (c' == c && a !in addrs))
          invariant client.changed == Drop(l0, done)
          invariant client.image == old(client.image)
          decreases addrs
        {
          HasMember(addrs);
          var a :| a in addrs;
          DropOneMore(l0, done, c, a);
          var removed := client.RemoveChangedRegister(c, a, batch[a].time);
          done := done + {(c, a)};
          addrs := addrs - {a};
        }
        classes := classes - {c};
      }
      assert done == Pairs(succ) by {
        forall p ensures p in done <==> p in Pairs(succ) {
          var (c, a) := p;
        }
      }
    }

    /**
     * The push phase of the sync step: when some class has pending writes,
     * write them to the field device and remove each confirmed one from the
     * ledger; the served image does not change.
     */
    method UpdateClientData()
      modifies client
      ensures client.changed == AfterPush(host, clientUnit, old(client.changed))
      ensures client.image == old(client.image)
    {
      var changedRegisters := client.changed;
      if PushDue(changedRegisters) {
        var failed, succ := WriteAllRegisters(changedRegisters);
        PushedOkWithin(host, clientUnit, changedRegisters);
        RemoveSuccessful(succ);
      }
    }

    /** The push phase as the older variant gates it: on any class key, even with every class empty. */
    method UpdateClientDataLegacy()
      modifies client
      ensures client.changed == AfterPushLegacy(host, clientUnit, old(client.changed))
      ensures client.changed == AfterPush(host, clientUnit, old(client.changed))
      ensures client.image == old(client.image)
    {
      LegacyPushAgrees(host, clientUnit, client.changed);
      var changedRegisters := client.changed;
      if LegacyPushDue(changedRegisters) {
        var failed, succ := WriteAllRegisters(changedRegisters);
        PushedOkWithin(host, clientUnit, changedRegisters);
        RemoveSuccessful(succ);
      }
    }

    /**
     * The pull phase of the sync step: take the latest snapshot and set each
     * of its valued entries, class by class, in the served image; the ledger
     * does not change.
     */
    method UpdateHostData()
      modifies this`clientData, client
      ensures clientData == KeepLatest(old(clientData), clientDataMsg)
      ensures Applied(old(client.image), client.image, clientData, Keys(clientData))
      ensures client.changed == old(client.changed)
    {
      var snap := ClientData();
      ghost var done: set<(RegClass, string)> := {};
      AppliedNothing(client.image, snap);
      for i := 0 to |AllClasses|
        invariant client.changed == old(client.changed)
        invariant clientData == snap
        invariant forall c, k :: (c, k) in done <==> c in snap && k in snap[c] && c in AllClasses[..i]
        invariant Applied(old(client.image), client.image, snap, done)
      {
        var c := AllClasses[i];
        if c in snap {
          var entries := snap[c];
          var todo := entries.Keys;
          while todo != {}
            invariant todo <= entries.Keys
            invariant client.changed == old(client.changed)
            invariant clientData == snap
            invariant forall c', k :: (c', k) in done <==>
              c' in snap && k in snap[c'] && (c' in AllClasses[..i] || (c' == c && k !in todo))
            invariant Applied(old(client.image), client.image, snap, done)
            decreases todo
          {
            var k :| k in todo;
            var e := entries[k];
            ghost var image0 := client.image;
            if e.val.Some? {
              client.SetRegister(c, e.register, e.val.value);
            }
            ApplyOneMore(old(client.image), image0, client.image, snap, done, c, k);
            done := done + {(c, k)};
            todo := todo - {k};
          }
        }
        assert AllClasses[..i + 1] == AllClasses[..i] + [c];
      }
      assert AllClasses[..|AllClasses|] == AllClasses;
      assert done == Keys(snap) by {
        forall p ensures p in done <==> p in Keys(snap) {
          var (c, k) := p;
          match c
          case Coils =>
          case Hregs =>
          case Ists =>
          case Iregs =>
        }
      }
    }

    // ------------------------------------------------- worker iterations

    /** One iteration of the collector: read everything and publish it, replacing the slot's content. */
    method CollectIteration()
      modifies this`clientDataMsg
      ensures clientDataMsg == Collected(host, clientUnit, registerDefinitions.registers)
    {
      var readContent := ReadAllRegisters();
      clientDataMsg := readContent;
    }

    /**
     * One iteration of the provisioner after serving the host: when the
     * sync interval has elapsed (`syncDue`), push pending writes first and
     * then pull the latest snapshot into the served image.
     */
    method ProvisionIteration(syncDue: bool)
      modifies this`clientData, client
      ensures syncDue ==>
        && client.changed == AfterPush(host, clientUnit, old(client.changed))
        && clientData == KeepLatest(old(clientData), clientDataMsg)
        && Applied(old(client.image), client.image, clientData, Keys(clientData))
      ensures !syncDue ==>
        client.changed == old(client.changed) && client.image == old(client.image) && clientData == old(clientData)
    {
      if syncDue {
        UpdateClientData();
        UpdateHostData();
      }
    }
  }
}
