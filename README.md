# Input and Mix lists of the scripting model API

This project models the core of the scripting (Lua) model API of the
transmitter firmware in `radio/src/lua/api_model.cpp`: the grouped,
key-ordered record lists behind the Input (expo) and Mix lists, plus the
small integer conversions and range guards in the same file.

Each list is a fixed-capacity array of slots. A slot is *live* when its
source (`srcRaw`) is non-zero. It carries a group key: `chn` for an input
line, `destCh` for a mix line. The entry points find a group with two linear
scans:

- `getFirstInput` / `getFirstMix` find the first slot that is dead or keyed
  at or above the requested key. That one position is both the start of the
  group and the place where a new group is spliced in.
- `getInputsCountFromFirst` / `getMixesCountFromFirst` count the run of live
  slots with that key.

`get`, `insert` and `delete` turn a group-relative line into the absolute
index `first + line`.

The model has four modules:

- `Wrappers` (`wrappers.dfy`) holds the `Option` datatype the others share.

- `GroupedList` (`grouped_list.dfy`) is the engine, generic in the payload of
  a slot.
  - It has pure specification functions for the scans and for the effect of
    each operation on the list value: `First`, `RunLength`, `Count`, `Get`,
    `InsertLine`, `DeleteLine` and `Cleared`.
  - It has in-place array methods proved equal to those functions:
    `FirstIndex`, `RunLengthAt`, `ShiftIn`, `ShiftOut` and `Fill`, and
    `InsertInPlace`, which combines the scans, the guard and the shift.
  - It states the layout invariant `WellFormed`: live slots form a prefix,
    and keys do not decrease over it.
  - It defines a reference view `Group(s, k)`, the live lines of group `k` in
    array order. The lemmas relate every operation to this view.
- `ApiModel` (`api_model.dfy`) holds the class `ModelData`.
  - Its fields are the expo and mix arrays, the global-variable table and the
    channel hand-off `s_currCh` (`currCh`).
  - Its methods model the Lua entry points for inputs, mixes and global
    variables.
- `Conversions` (`conversions.dfy`) holds the offsets that getOutput/setOutput
  and getModule/setModule apply. A script table is modelled with one optional
  field per key, `None` when the key is absent. setOutput visits only the keys
  the table holds, so an absent key leaves its stored field unchanged.

Records are opaque apart from their key and their source. The Lua table
marshalling is replaced by parameters: the source and the remaining fields of
a new line.

The model follows the code, with one exception: the input scan bound (see
"## Findings"). There the `ModelData` input entry points scan the whole list,
and the code as written is modelled beside them by the `...AsWritten`
functions of `ApiModel`. Some consequences of following the code:

- The insert guard compares the total live count with the capacity
  (`getExpoMixCount(...) < MAX_...`). It does not test that the last slot is
  dead, though in a well-formed list the two are equivalent
  (`GroupedList.LastSlotDead`).
- Insert, delete and deleteMixes do not mark the model dirty in this file.
  Only `SetGlobalVariable` does, through the ghost `dirty` flag.
- Keys are zero-based (`chn` 0 is Input1). Liveness depends only on the
  source.

The unseen engine helpers are modelled from how this file uses them:

- `getExpoMixCount` is the number of live slots in the whole array
  (`LiveCount`).
- `insertExpoMix` moves every slot from `idx` on one place toward the tail,
  and the last slot falls off (`Spliced`/`ShiftIn`). The key of the opened
  slot comes only through the global `s_currCh = chn + 1`: the helper takes
  just the list and the index, and the script's table has no key field. The
  model writes that hand-off out (`currCh := chn + 1`), and the opened slot is
  keyed `currCh - 1`.
- `deleteExpoMix` moves every later slot one place toward the head and clears
  the last slot (`Removed`/`ShiftOut`).

The board limits are those of the ARM radios that run the scripting engine:

| limit | value |
|---|---|
| `MAX_EXPOS` | 64 |
| `MAX_INPUTS` | 32 |
| `MAX_MIXERS` | 64 |
| `NUM_CHNOUT` | 32 |
| `MAX_FLIGHT_MODES` | 9 |
| `MAX_GVARS` | 9 |
| `GVAR_MAX` | 1024 |

The `GVAR_MAX` value matches the range documented at api_model.cpp:816-817.
The header that defines these constants is not part of this model.

## Model

| member | source | states |
|---|---|---|
| `GroupedList.First` | radio/src/lua/api_model.cpp:178-187 | getFirstInput/getFirstMix return the least index below the scan bound whose slot is dead or keyed at least k. Every slot before it is live and keyed below k. If no slot qualifies, the result is 0. |
| `GroupedList.FirstIndex` | radio/src/lua/api_model.cpp:369-378 | The early-exit scan loop returns exactly `First` and changes nothing. |
| `GroupedList.RunLength` | radio/src/lua/api_model.cpp:189-198 | The count covers consecutive live slots keyed k, starting at `first`. It stops at the first dead or other-key slot, or at the bound, so it is at most bound - first. |
| `GroupedList.RunLengthAt` | radio/src/lua/api_model.cpp:380-389 | The counting loop with `break` returns exactly `RunLength` and changes nothing. |
| `GroupedList.Count` | radio/src/lua/api_model.cpp:200-203 | getInputsCount/getMixesCount: the run starting at the scan result lies inside the bound, and every slot in it is a live line of group k. |
| `GroupedList.CountIsGroupSize` | radio/src/lua/api_model.cpp:391-394 | In a well-formed list, the count equals the number of live records keyed k. The group is exactly the run the scans find. |
| `GroupedList.LiveCount` | radio/src/lua/api_model.cpp:286 | The total compared with the capacity never exceeds it, and it reaches the capacity exactly when every slot is live. |
| `GroupedList.Get` | radio/src/lua/api_model.cpp:248-262 | getInput/getMix return a record exactly when line < count. That record is at absolute index first + line and is a live line of group k. Otherwise they return nil. |
| `GroupedList.GetIsGroupLine` | radio/src/lua/api_model.cpp:408-432 | In a well-formed list, get(k, line) is line `line` of the reference view of group k, and nil past its end. |
| `GroupedList.InsertLine` | radio/src/lua/api_model.cpp:283-290 | An insert is accepted exactly when key < limit, live count < capacity and line <= count. The splice index first + line then lies inside the array. A refused insert yields no new list. |
| `GroupedList.SpliceIndexInRange` | radio/src/lua/api_model.cpp:286-289 | When the list is not full and line <= count, first + line is below the capacity. This holds even when the list is not well-formed. |
| `GroupedList.InsertPreservesLayout` | radio/src/lua/api_model.cpp:443-446 | Inserting a live line keyed k at first + line keeps the live prefix and the key order. |
| `GroupedList.InsertGroups` | radio/src/lua/api_model.cpp:287-290 | After an accepted insert of a live line (non-zero source) into a well-formed list, group k is its old lines before `line`, then the new record, then the rest of its old lines in their original order. Every other group is unchanged. |
| `GroupedList.InsertThenGet` | radio/src/lua/api_model.cpp:444-447 | After an accepted whole-list insert of a live line (non-zero source) into a well-formed list, get(k, line) reads the new record, and count(k) has grown by one. |
| `GroupedList.DeleteLine` | radio/src/lua/api_model.cpp:333-338 | A delete acts exactly when line < count. It then removes absolute index first + line, which lies inside the array. |
| `GroupedList.DeletePreservesLayout` | radio/src/lua/api_model.cpp:512-514 | Deleting a line, with the freed last slot cleared, keeps a well-formed list well-formed. |
| `GroupedList.DeleteGroups` | radio/src/lua/api_model.cpp:336-338 | Exactly line `line` of group k disappears. The rest of group k keeps its order, and every other group is unchanged. |
| `GroupedList.ShiftIn` | radio/src/lua/api_model.cpp:289 | The in-place shift toward the tail leaves the array equal to `Spliced` of its old contents. Slots before idx are unchanged, and later ones move one place. |
| `GroupedList.InsertInPlace` | radio/src/lua/api_model.cpp:283-289 | The scans, the guard and the shift on the array: `ok` is true exactly when `InsertLine` accepts, the array becomes its result or stays as it was, and a live line keeps a well-formed list well-formed. |
| `GroupedList.ShiftOut` | radio/src/lua/api_model.cpp:513 | The in-place shift toward the head leaves the array equal to `Removed` of its old contents. |
| `GroupedList.Fill` | radio/src/lua/api_model.cpp:521 | After the memset, every slot is the cleared slot. |
| `GroupedList.ClearedIsEmpty` | radio/src/lua/api_model.cpp:519-523 | After deleteMixes, every slot is dead and the list is well-formed. For every k, the first-mix scan returns 0, the count is 0 and the group is empty. |
| `GroupedList.ScanBoundIrrelevant` | radio/src/lua/api_model.cpp:178-198 | A scan bound below the end of the list gives the same first position and count as a whole-list scan whenever the slot just before the bound is dead. |
| `GroupedList.FallbackIsFull` | radio/src/lua/api_model.cpp:186 | When the scan covers the whole array and no slot stops it, the fallback position 0 comes with count 0, and the list is full, so an insert is refused. |
| `ApiModel.ModelData.GetInputsCount` | radio/src/lua/api_model.cpp:216-222 | Corrected variant: the scans cover all MAX_EXPOS slots. Reads the count without changing state. In a well-formed list, it is the number of lines of the input. |
| `ApiModel.ModelData.GetInput` | radio/src/lua/api_model.cpp:244-263 | Corrected variant: the scans cover all MAX_EXPOS slots. Read-only. Returns line `line` of the input's group, or nil. |
| `ApiModel.ModelData.InsertInput` | radio/src/lua/api_model.cpp:278-315 | Corrected variant: the scans cover all MAX_EXPOS slots. The new array is the accepted splice, or the old array when the insert is refused. `s_currCh` becomes chn + 1 exactly on acceptance. A well-formed list stays well-formed. |
| `ApiModel.ModelData.DeleteInput` | radio/src/lua/api_model.cpp:328-341 | Corrected variant: the scans cover all MAX_EXPOS slots. The new array has line first + line removed when line < count, and is unchanged otherwise. The layout is preserved. |
| `ApiModel.ModelData.DeleteInputs` | radio/src/lua/api_model.cpp:343-354 | "Delete all Inputs": every input slot is zeroed. The list is well-formed, and getFirstInput(k) = 0 and getInputsCount(k) = 0 for every k. |
| `ApiModel.ModelData.DefaultInputs` | radio/src/lua/api_model.cpp:356-367 | The input list becomes the default layout the helper builds, passed in as a well-formed value. |
| `ApiModel.ModelData.GetMixesCount` | radio/src/lua/api_model.cpp:396-402 | Reads the count without changing state. In a well-formed list, it is the number of mix lines of the channel. |
| `ApiModel.ModelData.GetMix` | radio/src/lua/api_model.cpp:404-433 | Read-only. Returns line `line` of the channel's group, or nil. |
| `ApiModel.ModelData.InsertMix` | radio/src/lua/api_model.cpp:435-502 | The same as InsertInput, with key limit NUM_CHNOUT and capacity MAX_MIXERS. |
| `ApiModel.ModelData.DeleteMix` | radio/src/lua/api_model.cpp:504-517 | The same as DeleteInput on the mix list. |
| `ApiModel.ModelData.DeleteMixes` | radio/src/lua/api_model.cpp:519-523 | Every mix slot is zeroed. The list is well-formed, and getFirstMix(k) = 0 and getMixesCount(k) = 0 for every k. |
| `ApiModel.ModelData.GetGlobalVariable` | radio/src/lua/api_model.cpp:796-805 | Returns a value exactly when phase < MAX_FLIGHT_MODES and idx < MAX_GVARS, and that value is the stored one. |
| `ApiModel.ModelData.SetGlobalVariable` | radio/src/lua/api_model.cpp:823-833 | Writes, and marks the model dirty, only when phase and idx are in the table and -GVAR_MAX <= value <= GVAR_MAX. Every other variable is unchanged, and the range invariant of the table is kept. |
| `ApiModel.InputsCountAsWritten` | radio/src/lua/api_model.cpp:178-203 | getInputsCount as written never exceeds MAX_INPUTS. When slot MAX_INPUTS - 1 is free, it equals the whole-list count. |
| `ApiModel.GetInputAsWritten` | radio/src/lua/api_model.cpp:244-263 | getInput as written returns a line exactly when line < the as-written count, never one at or past MAX_INPUTS. When slot MAX_INPUTS - 1 is free, it equals the whole-list get. |
| `ApiModel.DeleteInputAsWritten` | radio/src/lua/api_model.cpp:328-341 | deleteInput as written acts exactly when line < the as-written count, never at or past MAX_INPUTS. When slot MAX_INPUTS - 1 is free, it equals the whole-list delete. |
| `ApiModel.InsertInputAsWritten` | radio/src/lua/api_model.cpp:278-290 | insertInput as written is accepted exactly when chn < MAX_INPUTS, the list is not full and line <= the as-written count. When slot MAX_INPUTS - 1 is free, it equals the whole-list insert. |
| `ApiModel.InputReadScanBoundCounterexample` | radio/src/lua/api_model.cpp:244-263 | In a well-formed list holding 40 lines of input 0, the as-written count is MAX_INPUTS while the group has 40 lines, and getInput(0, 35) and deleteInput(0, 35) do nothing while the whole-list versions read and remove line 35. |
| `ApiModel.InputScanBoundCounterexample` | radio/src/lua/api_model.cpp:178-198 | With the input scans bounded by MAX_INPUTS, a well-formed list holding MAX_INPUTS lines of input 0 accepts an insert for input 1 at position 0, which breaks the key order. A scan over the whole list finds position MAX_INPUTS. |
| `Conversions.StoreOutput` | radio/src/lua/api_model.cpp:733-768 | setOutput overwrites min, max and curve only for the keys the table holds, and keeps every other stored field. The stored curve becomes 0 exactly for index -1, or when the key is absent and no curve was set. |
| `Conversions.ReportOutput` | radio/src/lua/api_model.cpp:694-704 | getOutput always reports min and max, and leaves out the curve key exactly when the stored value is 0. |
| `Conversions.OutputRoundTrip` | radio/src/lua/api_model.cpp:742-765 | getOutput after setOutput returns each written key as written, except that curve -1 reads back as absent. Each key the script left out reads back as it did before. |
| `Conversions.StoredOutputRoundTrip` | radio/src/lua/api_model.cpp:743-746 | setOutput with what getOutput reports, onto the same output, leaves the stored limits and curve unchanged. |
| `Conversions.CopyKeepsCurve` | radio/src/lua/api_model.cpp:701-704 | Copying the table of an output without a curve onto an output with one keeps the target's curve, so the copy reads back differently. The reported table has no `curve` key. |
| `Conversions.StoreChannelsCount` | radio/src/lua/api_model.cpp:107-109 | setModule stores channelsCount relative to 8: a count of 8 is stored as 0, and exactly the counts below 8 are stored negative. |
| `Conversions.ReportChannelsCount` | radio/src/lua/api_model.cpp:80 | getModule reports the count that, stored by setModule, gives back the stored value. |
| `Conversions.ChannelsCountRoundTrip` | radio/src/lua/api_model.cpp:108 | A channel count stored as n - 8 and reported as stored + 8 round-trips both ways. |

## Left out

- Lua stack marshalling and the string-keyed field dispatch are not modelled (`lua_next` loops, `luaL_check*`, `lua_pushtable*`, `strcmp` chains). A new line's source and other fields are parameters. A table that omits fields, leaving the helper's defaults in place, is not modelled.
- Name copying (`str2zchar`, `strncpy`, the `modelHeaders` mirror) is not modelled. It is fixed-width text encoding done by helpers that are not part of this model.
- Timers (`timerReset`, `timersStates`), logical switches, custom functions and `getInfo`/`setInfo` are left out. They are field copying, or state outside this file.
- getCurve is left out. It walks packed curve memory through `curveAddress`, and that layout is not part of this model.
- `radio/src/lua/api_lcd.cpp` is left out: drawing primitives, pixmap file loading, float formatting and screen layout. It calls renderers that are not part of this model.
- The persistence notification `eeDirty` is modelled only as the ghost flag set by `SetGlobalVariable`. setOutput (api_model.cpp:767) and setModule (api_model.cpp:111) also call it. `Conversions` models only their value conversions, as functions on the stored record, without the dirty flag. The other setters that call it are field copying and are left out.
- The index guards of getOutput/setOutput (`idx < NUM_CHNOUT`) and getModule/setModule (`idx < NUM_MODULES`) are not modelled. The `Conversions` functions act on the record of one output or module.
- `Conversions.StoreOutput`: the branch of setOutput that stores 0 for a nil curve (api_model.cpp:761-762) is not modelled, because it cannot run. `lua_next` never yields a nil value, since a Lua table cannot hold one. A table without `curve` leaves the stored curve unchanged, and a script clears the curve only with index -1. `Conversions.OutputRoundTrip` states this behaviour.
- Integer widths are not modelled. Keys, sources, limits, channel counts and global variables are unbounded integers, so the bit-field truncation of the stored records and the `int` conversion of script numbers are not captured.
- `insertExpoMix`, `deleteExpoMix`, `getExpoMixCount`, `clearInputs` and `defaultInputs` are not part of this model. The first three are modelled from how this file uses them. `clearInputs` is modelled as zeroing the whole input list, as its entry point documents ("Delete all Inputs").
- `ApiModel.ModelData.DefaultInputs`: the default layout is a parameter, required to be well-formed. What `defaultInputs` puts in it (one line per stick input) is not part of this model, so the model does not promise which lines the defaults are.
- `ApiModel.ModelData.GetInputsCount`: scans all MAX_EXPOS slots, not the MAX_INPUTS slots of the code as written (see "## Findings"). The code as written is `ApiModel.InputsCountAsWritten`.
- `ApiModel.ModelData.GetInput`: the same corrected scan bound. The code as written is `ApiModel.GetInputAsWritten`.
- `ApiModel.ModelData.DeleteInput`: the same corrected scan bound. The code as written is `ApiModel.DeleteInputAsWritten`.
- `ApiModel.ModelData.InsertInput`: scans all MAX_EXPOS slots, not the MAX_INPUTS slots of the code as written (see "## Findings"). The code as written is `ApiModel.InsertInputAsWritten`. It also keeps the layout only when the written source is non-zero. The entry point writes whatever source the script passes, and a source of 0 leaves a dead slot inside the live prefix.
- `ApiModel.ModelData.InsertMix`: its layout guarantee needs a non-zero source, for the same reason.
- Deleting a whole group (clearGroup) is not an entry point of this file and is not modelled.

## Findings

| source | as written | input that shows it | evidently intended | confidence | as-written member | corrected member |
|---|---|---|---|---|---|---|
| radio/src/lua/api_model.cpp:178-198 | getFirstInput and getInputsCountFromFirst loop while `i < MAX_INPUTS` (32), but the expo array has MAX_EXPOS (64) slots, the capacity the insert guard at line 286 compares with. If the first 32 slots are live and keyed below `chn`, getFirstInput falls back to 0. The insert as written is `ApiModel.InsertInputAsWritten`. | 32 lines on input 0, then `insertInput(1, 0, {source=1})`: the count is 0 and the list is not full, so the line is spliced at index 0, in front of the input-0 lines, and the key order breaks. | Scan all MAX_EXPOS slots, as the mix scans do with MAX_MIXERS. The new line then lands at index 32. `ModelData`'s input entry points (count, get, insert, delete) all scan the whole list. | medium (not executed; depends on MAX_INPUTS < MAX_EXPOS in the board header) | `ApiModel.InputScanBoundCounterexample` | `ApiModel.ModelData.InsertInput` |
| radio/src/lua/api_model.cpp:216-222 | getInputsCount uses the same scans bounded by MAX_INPUTS, so it never reports more than 32 lines, although an input can hold more (insertInput as written accepts line 32 of an input that has 32 lines). | 40 lines on input 0 in a 64-slot list: `getInputsCount(0)` returns 32. | Count the whole group: 40. | medium (not executed; depends on MAX_INPUTS < MAX_EXPOS in the board header) | `ApiModel.InputReadScanBoundCounterexample` | `ApiModel.ModelData.GetInputsCount` |
| radio/src/lua/api_model.cpp:244-263 | getInput compares the line with the count bounded by MAX_INPUTS. | 40 lines on input 0: `getInput(0, 35)` returns nil. | Return line 35 of input 0. | medium (not executed; depends on MAX_INPUTS < MAX_EXPOS in the board header) | `ApiModel.InputReadScanBoundCounterexample` | `ApiModel.ModelData.GetInput` |
| radio/src/lua/api_model.cpp:328-341 | deleteInput compares the line with the count bounded by MAX_INPUTS. | 40 lines on input 0: `deleteInput(0, 35)` does nothing. | Remove line 35 of input 0. | medium (not executed; depends on MAX_INPUTS < MAX_EXPOS in the board header) | `ApiModel.InputReadScanBoundCounterexample` | `ApiModel.ModelData.DeleteInput` |
