# Modbus bridge of the MicroPython modules, in Dafny

This project models the core of a MicroPython Modbus bridge. The bridge
polls a field device through a Modbus *requester* (the source's `host`
attribute). It serves a supervisory host through a Modbus *responder* (the
source's `client` attribute). Two workers keep the two sides in step:

- the **collector** reads every defined register of the field device and
  publishes the result as a snapshot;
- the **provisioner** serves the host. When the sync interval has elapsed,
  it first pushes the writes the host made (the responder's change ledger)
  to the field device. Each confirmed write is removed from the ledger,
  compared by its timestamp. It then pulls the latest snapshot into the
  register image served to the host.

The project also models two helpers the firmware uses: the device UUID
(`get_uuid`) and the free disk space (`df`) of the generic helper, and the
file existence check (`exists`) of the path helper.

Modules:

- `Support`: an `Option` type and ASCII `str.lower`.
- `Registers`: register classes, values, definitions, snapshots and the
  change ledger. It also holds the specification functions of the sync
  engine (read pass, write split, push, pull) and the lemmas about them.
- `Transport`: the responder as a class. Its `changed` ledger and served
  `image` are updated in place by the two calls the bridge makes.
- `Connection`: validation of the `CONNECTION` block of the register file.
- `Bridge`: the class `ModbusBridge`. It has the source's fields, setters
  and run flags, the read and write loops, and one sync step. Each method
  is proved against the functions of `Registers` and `Connection`.
- `GenericHelper`: hexlify, repetition, Python slicing, `get_uuid`, `df`.
- `PathHelper`: `split('/')`, the directory walk of `exists` as a method
  with a loop, and a recursive reference walk it is proved against.

The requester's answers are outside the bridge's control. They are
arbitrary functions of the call's arguments: a read returns values or
raises, and a write returns a truthy or falsy status or raises. The
responder is given at construction. The file system, the unique id of the
board and the `statvfs` tuple are inputs.

The repository has two copies of the bridge: `be_helpers/modbus_bridge.py`
and the older `modbus_bridge.py`. They differ in the sync logic only in the
gate of the push phase:

- the newer copy pushes when some class has a pending entry;
- the older copy pushes as soon as the ledger has any class key, because it
  iterates the class names.

The older gate is `Bridge.ModbusBridge.UpdateClientDataLegacy`, and
`Registers.LegacyPushAgrees` proves that both gates leave the same ledger.
Everything else follows the newer copy.

The four `read_*_registers` methods differ only in the transport call and
the class they read. They are modelled by one method,
`Bridge.ModbusBridge.ReadRegisters`, which takes the class as a parameter.
Likewise `write_coil_registers` and `write_hregs_registers` are modelled by
`Bridge.ModbusBridge.WriteRegisters`. The `Requester` datatype keeps the
function code of each call apart (read per class, write single coil, write
single register).

The `CONNECTION` value is one flat block with `type`, `unit`, `address`,
`mode` and optional `baudrate`: `_load_connection_settings` looks the
required keys up directly in that value (be_helpers/modbus_bridge.py:414).
A register file whose `CONNECTION` holds one labelled block per role
therefore lacks those keys at the top level and only draws the "Missing
connection keys" warning (lines 446-450), so at most one side is adopted
per load. The constructor runs this load, as `__init__` does (line 83).

## Model

| member | source | states |
|---|---|---|
| `Registers.CoilWord` | be_helpers/modbus_bridge.py:940-943 | A coil is written with output value 0xFF00 exactly when its value is the boolean `True` (an identity test), and with 0x0000 otherwise. |
| `Registers.ReadClass` | be_helpers/modbus_bridge.py:867-912 | One class's read pass holds an entry for a key exactly when that key's read returned. The entry keeps the defined address and always carries a value. A raised read is left out and does not stop the loop. |
| `Registers.Collected` | be_helpers/modbus_bridge.py:730-793 | A read-all snapshot has exactly the classes that the definitions contain. |
| `Registers.CollectedEntry` | be_helpers/modbus_bridge.py:889-911 | A read returning one item is stored as a scalar, and any other count as a list. A read that raised leaves no entry. |
| `Registers.CollectedUnrolled` | be_helpers/modbus_bridge.py:748-786 | Adding the classes one after the other, each only when defined, yields the read-all snapshot. |
| `Registers.Succeeded` | be_helpers/modbus_bridge.py:914-964 | An entry of a batch is successful iff the transport confirmed its write with a truthy status. Entries are copied unchanged. |
| `Registers.Failed` | be_helpers/modbus_bridge.py:1015-1061 | An entry is failed iff the write raised or returned a falsy status. Entries are copied unchanged. |
| `Registers.BatchPartition` | be_helpers/modbus_bridge.py:1056-1059 | The failed and successful parts of a batch are disjoint and together cover the whole batch. |
| `Registers.PushedOk` | be_helpers/modbus_bridge.py:795-865 | The successful result of a push has a class only if that class is writable (coils, holding registers) and its successful part is non-empty. |
| `Registers.PushFailed` | be_helpers/modbus_bridge.py:795-865 | The failed result of a push has a class only if that class is writable and its failed part is non-empty. |
| `Registers.PushPartition` | be_helpers/modbus_bridge.py:818-856 | A read-only class is never reported. Each entry of a writable class is reported in exactly one of the two results, unchanged. |
| `Registers.PushFailedUnrolled` | be_helpers/modbus_bridge.py:818-848 | Recording the coils part, then the holding-register part, each only when non-empty, yields the failed result. |
| `Registers.PushedOkUnrolled` | be_helpers/modbus_bridge.py:818-848 | The same for the successful result. |
| `Registers.RemoveIfCurrent` | be_helpers/modbus_bridge.py:710-714 | A removal by timestamp drops the entry only if it still carries that timestamp. Otherwise the ledger is unchanged. |
| `Registers.DropOneMore` | be_helpers/modbus_bridge.py:702-717 | Removing one more successful entry by its recorded timestamp drops exactly that (class, address) pair from the ledger. |
| `Registers.PushedOkWithin` | be_helpers/modbus_bridge.py:695-705 | Every successful entry is an entry of the ledger that was pushed, with the same content. |
| `Registers.AfterPushEntry` | be_helpers/modbus_bridge.py:687-728 | After a push phase an entry is gone iff its write was confirmed. Failed writes and read-only classes stay unchanged for the next cycle, and no class key disappears. |
| `Registers.AfterPushShrinks` | be_helpers/modbus_bridge.py:687-728 | The push phase never adds an address to the ledger. |
| `Registers.NothingPendingNothingRemoved` | be_helpers/modbus_bridge.py:695 | With no pending entry, nothing can succeed and nothing would be removed. |
| `Registers.LegacyPushAgrees` | modbus_bridge.py:702 | The older gate (any class key) leaves the same ledger as the newer gate (any pending entry). |
| `Registers.ApplyOneMore` | be_helpers/modbus_bridge.py:655-682 | Applying one more snapshot entry changes only that entry's cell: a valued entry sets it, and an entry without a value changes nothing. |
| `Registers.KeepLatest` | be_helpers/modbus_bridge.py:336-343 | A non-empty published snapshot replaces the kept one; an empty slot leaves the kept one. The result is empty only when both are. |
| `Transport.Responder.RemoveChangedRegister` | be_helpers/modbus_bridge.py:710-714 | Compare-and-delete on the ledger. It reports a removal iff the entry was present with that timestamp, and the served image is untouched. |
| `Transport.Responder.SetRegister` | be_helpers/modbus_bridge.py:664-679 | Setting a register adds or overwrites exactly one cell of the served image, and the ledger is untouched. |
| `Connection.ExtractConnection` | be_helpers/modbus_bridge.py:397-455 | Settings are adopted only from a block with all four required keys; otherwise only a warning is given. RTU without a baud rate raises, any type but rtu or tcp raises, and a non-integer unit raises. Mode slave adopts the client side, mode master the host side, and any other mode raises. |
| `Connection.NonIntUnitRejected` | be_helpers/modbus_bridge.py:428-431 | Once the type is acceptable, a unit that is not an integer is rejected. |
| `Connection.UnknownModeRejected` | be_helpers/modbus_bridge.py:433-451 | With a valid type and unit, any mode but slave or master is rejected with that mode. |
| `Bridge.ModbusBridge.SetClientUnit` | be_helpers/modbus_bridge.py:243-255 | The client unit takes an integer (a boolean counts), and anything else raises and leaves the unit as it was. |
| `Bridge.ModbusBridge.SetHostUnit` | be_helpers/modbus_bridge.py:267-279 | The same for the host unit. |
| `Bridge.ModbusBridge.SetConnectionSettingsClient` | be_helpers/modbus_bridge.py:176-191 | A non-empty block replaces the client settings. A truthy `unit` in it also sets the client unit, and a non-integer one raises after the settings were replaced. |
| `Bridge.ModbusBridge.SetConnectionSettingsHost` | be_helpers/modbus_bridge.py:149-164 | The same for the host side. |
| `Bridge.ModbusBridge.LoadConnectionSettings` | be_helpers/modbus_bridge.py:397-455 | The settings and unit of exactly the side `ExtractConnection` selects are adopted. On a warning or an error nothing changes. |
| `Bridge.ModbusBridge.constructor` | be_helpers/modbus_bridge.py:41-83 | A new bridge has both workers stopped, an empty snapshot slot, and the settings and unit of exactly the side `ExtractConnection` selects from the `CONNECTION` value (empty settings and unit 0 elsewhere); a rejected block is recorded as the error `__init__` raises. |
| `Bridge.ModbusBridge.CollectingClientData` | be_helpers/modbus_bridge.py:301-309 | The collector counts as running exactly while its lock is held; the setter's contract is stated through it. |
| `Bridge.ModbusBridge.ProvisioningHostData` | be_helpers/modbus_bridge.py:345-353 | The same for the provisioner. |
| `Bridge.ModbusBridge.SetCollectingClientData` | be_helpers/modbus_bridge.py:311-334 | Afterwards the run flag equals the requested value. A worker is started only when it was not running, so repeating a start or a stop changes nothing. |
| `Bridge.ModbusBridge.SetProvisioningHostData` | be_helpers/modbus_bridge.py:355-377 | The same for the provisioner. |
| `Bridge.ModbusBridge.ClientData` | be_helpers/modbus_bridge.py:336-343 | Taking the snapshot keeps the previous one when the slot is empty. |
| `Bridge.ModbusBridge.ReadRegisters` | be_helpers/modbus_bridge.py:867-912 | The loop over one class's definitions yields `ReadClass` of those definitions, read with the client unit. |
| `Bridge.ModbusBridge.ReadAllRegisters` | be_helpers/modbus_bridge.py:730-793 | One read pass yields `Collected`: a result for exactly the defined classes. |
| `Bridge.ModbusBridge.WriteRegisters` | be_helpers/modbus_bridge.py:914-964 | The loop over a batch of coils or holding registers yields exactly its `Failed` and `Succeeded` parts. |
| `Bridge.ModbusBridge.WriteAllRegisters` | be_helpers/modbus_bridge.py:795-865 | Writing a ledger yields exactly `PushFailed` and `PushedOk`. Read-only classes are skipped. |
| `Bridge.ModbusBridge.RemoveSuccessful` | be_helpers/modbus_bridge.py:702-717 | Removing every successful entry by its timestamp drops exactly those pairs from the ledger, and the served image is untouched. |
| `Bridge.ModbusBridge.UpdateClientData` | be_helpers/modbus_bridge.py:687-728 | The push phase leaves the ledger as `AfterPush`, so exactly the confirmed writes are removed, and the served image does not change. |
| `Bridge.ModbusBridge.UpdateClientDataLegacy` | modbus_bridge.py:694-732 | The older push phase leaves the ledger as `AfterPushLegacy`, which equals `AfterPush`. |
| `Bridge.ModbusBridge.UpdateHostData` | be_helpers/modbus_bridge.py:651-685 | The pull phase takes the latest snapshot and applies all its entries to the served image. Every valued entry's cell holds a value of an entry for that class and address, every other cell is unchanged, and the ledger is unchanged. |
| `Bridge.ModbusBridge.CollectIteration` | be_helpers/modbus_bridge.py:606-611 | One collector iteration publishes a fresh read-all snapshot. |
| `Bridge.ModbusBridge.ProvisionIteration` | be_helpers/modbus_bridge.py:631-644 | When the interval has elapsed, push and then pull. Otherwise neither the ledger, the image nor the kept snapshot changes. |
| `GenericHelper.Hexlify` | be_helpers/generic_helper.py:101 | The hexlified id has two lower-case hex digits per byte. |
| `GenericHelper.UnhexlifyHexlify` | be_helpers/generic_helper.py:101 | Hexlifying loses nothing: unhexlifying gives the id back. |
| `GenericHelper.RepeatAt` | be_helpers/generic_helper.py:108-110 | Position `i` of the repeated uuid holds character `i mod L` of the uuid. |
| `GenericHelper.AmountIsCeiling` | be_helpers/generic_helper.py:104-105 | The copy count is the ceiling of `abs(length) / L`: enough copies, and one fewer would not be enough. |
| `GenericHelper.GetUuid` | be_helpers/generic_helper.py:91-112 | Without a length the result is the full hexlified id. It raises (division by zero) exactly when a length is given and the id is empty. |
| `GenericHelper.UuidLength` | be_helpers/generic_helper.py:103-110 | With a length and a non-empty id, the UUID has exactly `abs(length)` characters. |
| `GenericHelper.UuidPrefix` | be_helpers/generic_helper.py:109-110 | For `length >= 0`, character `i` is character `i mod L` of the uuid: a prefix of the endless repetition. |
| `GenericHelper.UuidSuffix` | be_helpers/generic_helper.py:107-108 | For `length < 0`, character `i` is character `(i + length) mod L` of the uuid: the last `abs(length)` characters, ending on the uuid's last character. |
| `GenericHelper.UnitOf` | be_helpers/generic_helper.py:133-138 | A unit is recognised iff its lower-cased spelling is `byte`, `kb` or `mb`. |
| `GenericHelper.Df` | be_helpers/generic_helper.py:115-140 | Without a unit the result is block size times free blocks. An unrecognised unit gives -1. A known unit gives a formatted amount of those free bytes. |
| `GenericHelper.DfMinusOneIffUnknown` | be_helpers/generic_helper.py:129-140 | Since block counts are never negative, -1 comes back iff a unit other than byte, kB or MB was given. |
| `GenericHelper.DfIgnoresCase` | be_helpers/generic_helper.py:133-138 | The unit is matched regardless of case. |
| `PathHelper.Split` | be_helpers/path_helper.py:32 | `split('/')` yields at least one piece, and no piece contains `/`. |
| `PathHelper.JoinSplit` | be_helpers/path_helper.py:32 | Joining the pieces with `/` gives the path back. |
| `PathHelper.SplitNoSeparator` | be_helpers/path_helper.py:32 | A path without `/` is a single piece. |
| `PathHelper.WalkedDirStep` | be_helpers/path_helper.py:51-54 | Descending into one more component extends the walked path by it: bare from the root `''`, after a `/` otherwise. |
| `PathHelper.WalkedDirIsJoin` | be_helpers/path_helper.py:35-54 | When the first component is not empty, the walked directory path is the components joined with `/`. |
| `PathHelper.WalkPrefix` | be_helpers/path_helper.py:44-58 | Once the first `i` components are found, the walk from the root equals the walk of the rest from the directory reached. |
| `PathHelper.Exists` | be_helpers/path_helper.py:20-66 | The loop's answer is the reference walk's: `None` when a listing raises, else found or not. It lists at most one directory per component, each the path walked so far, and never changes the file system. |
| `PathHelper.ListingsAt` | be_helpers/path_helper.py:44-45 | The `j`-th directory listed is the directory reached after the first `j` components. |
| `PathHelper.MissingComponentIsFalse` | be_helpers/path_helper.py:44-58 | A component before the last that is missing from the current listing makes the answer false, whatever follows. |
| `PathHelper.FoundIff` | be_helpers/path_helper.py:60-66 | The answer is true iff every earlier component is listed along the way and the last one is listed in the directory finally reached. |
| `PathHelper.NoSeparatorAtRoot` | be_helpers/path_helper.py:32-61 | A path without `/` is looked up directly in the listing of the root `''`. |
| `PathHelper.AbsolutePathNotFound` | be_helpers/path_helper.py:32-58 | A path starting with `/` begins with an empty component. As no listing holds an empty name, it is never found. |

## Left out

- Threads, locks and sleeps are not modelled. The two worker loops are
  modelled by one iteration each. The `_client_usage_lock` idle loops
  guarding the requester are left out. The time test of the provisioner is
  a boolean input to `ProvisionIteration`.
- The run-flag setters model only the bookkeeping of the run flags: the
  flag and a count of started workers. `value` is a boolean, so a falsy
  non-boolean that the source (`value is False`) would not treat as a stop
  is not modelled.
- The responder's `process()` call, which serves the host's requests, is
  not modelled. Host writes appear in the model as the given initial
  ledger.
- The Modbus transport library (framing, CRC, function-code encoding) is
  not modelled. The requester is an arbitrary deterministic oracle: a
  pure function of the call, fixed for the bridge's lifetime. The field
  device is therefore frozen: every collect iteration publishes the same
  snapshot, a confirmed write never shows up in a later read, and nothing
  across iterations (such as a fresh read overwriting a recent host
  write) is stated. The responder's compare-and-delete removal and its register setters are
  assumed to behave as `Transport.Responder` states. Removal exceptions,
  which the bridge catches, are taken not to happen.
- `setup_connection` and `_get_network_ip` (socket and UART set-up,
  network interfaces) are not modelled. The requester and the responder
  are given to the constructor instead.
- `_load_register_file` and JSON loading are not modelled. The register
  definitions are given as a `Catalog` value.
- Logging, and the extra logging and garbage collection of the older copy,
  are not modelled.
- Bridge.ModbusBridge.ReadRegisters: requires the class to be defined. The
  source indexes the definitions directly and would raise `KeyError`;
  `read_all_registers` calls it only for defined classes.
- Bridge.ModbusBridge.WriteRegisters: ledger entries always carry `val`
  and `time`, as the responder records them. A missing key is not
  modelled.
- Registers.ReadClass: register definitions always carry `register` and
  `len`. Non-dict blocks and values that are not JSON scalars are not
  modelled.
- Bridge.ModbusBridge.UpdateHostData: several entries of one class may
  target the same address. The model states only that the cell ends up
  with the value of one of them, and does not fix which, because Python's
  dict iteration order is not modelled.
- The order in which batch entries are written is not modelled. Each write
  is independent of the others in the oracle model.
- Support.Lower: `str.lower` is modelled for ASCII only. Other Unicode case
  mappings are not modelled.
- GenericHelper.Df: the kB and MB branches render a float with three
  decimals, and the byte branch renders an integer followed by ` byte`.
  The model keeps only the unit and the byte amount shown, not the text.
  `os.statvfs` of the path is an input tuple.
- `get_free_memory`, `free`, `get_system_infos_*`, the logger helpers, and
  the LED, WiFi, time and update helpers are not part of this model.
- GenericHelper.GetUuid: `machine.unique_id()` is an input. An empty id is
  allowed, to model the division by zero.
- PathHelper.Exists: the file system is a map from directory path to the
  names `os.listdir` returns. A path that is not a key is one on which
  `os.listdir` raises, which covers a missing directory and a plain file.
