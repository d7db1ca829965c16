# Ship Customization Extended — directive scanner, dispatcher and name memo

Ship Customization Extended is a game-client mod. It reads customisation
directives out of a ship's display name and applies them to the ship's 3D
model. Every five seconds it walks over all ships. Each ship has a memo entry
holding the last name it was customised with. A ship whose entry equals its
current name is skipped. Any other ship has its name scanned:

- characters up to the first `#` are ignored;
- after that, every character is an operator, paired with the next character
  (or a blank at the end of the name) as its value;
- the five operators are `S` (sail colour), `L` (light colour), `R` (rigging
  colour), `F` (flag texture) and `D` (sail texture);
- when the dispatcher reports that it used the value, the scan steps over it.

Then the ship's memo entry is set to the name. Pressing Home clears the memo.

This project models the engine-independent part of
`ShipCustomizationExtended/ModBaseClass.cs`:

- `Tables.dfy`: the colour table (`ProcessColor`) and the flag-texture table
  (`ProcessFlagTexture`). Colours are named. Textures are `Image(file)` or the
  engine's `WhiteTexture`.
- `Dispatcher.dfy`: `ProcessOperator`. Its answer is whether the value was used
  and the apply call it makes, if any. Apply calls are abstract `Effect` values
  (`SailColor`, `LightColor`, `RiggingColor`, `CustomFlag`, `SailTexture`).
- `Scanner.dfy`: the scan loop of `ShipLoop`, done as the imperative method
  `Scan`. It is proved equal to the recursive function `Directives`. Lemmas
  about `Directives` say exactly which positions reach the dispatcher, with
  what value, and in what order. Positions count Unicode characters; see
  "## Left out" for names outside the Basic Multilingual Plane.
- `Cache.dfy`: the memo as the class `NameCache` over a `map<ShipId, string>`,
  the tick as the method `ShipLoop`, the Home key as `Update`, and the
  function `Tick` that specifies one tick. Lemmas about `Tick` cover skipping,
  committing, idempotence and clearing.
- `Examples.dfy`: sample names and what their scans do.

Environment inputs are parameters:

- the set of asset files that exist (`assets`);
- each ship's current name (`Host.names`); looking up a ship that has no name
  throws;
- the scan positions at which handling an operator throws (`faults`);
- whether Home was pressed this frame (`homeKeyDown`).

Behaviour of the code worth knowing:

- The doc comment at `ModBaseClass.cs:256` reads "Returns true if flag
  texture exists". The code keeps that: a known key whose file exists returns
  true. It also returns true for a known key whose file is missing
  (lines 265-279). `LoadTexture` then gives the white texture (lines 300-304).
- For `"Ship#Fx"` no apply call is made at all (lines 173-176).
- An exception inside `ProcessOperator` makes it return "value not used". So
  the value character is then read as the next operator. It is not skipped.
- An exception outside `ProcessOperator` ends the whole tick. Here that is the
  name lookup. Later ships wait for the next tick, and the failing ship's
  entry is not written.

`ProcessColor` and `ProcessFlagTexture` are Dafny functions. `ProcessColor`
always gives the same result for the same key. `ProcessFlagTexture` gives the
same result for the same key and the same set of asset files: whether the file
of a known key exists decides between its image and white. Dafny checks every index into the name
in `Scan` and proves that the loop terminates. So the scan never reads past the
last character.

## Model

| member | source | states |
|---|---|---|
| Tables.ProcessColor | ShipCustomizationExtended/ModBaseClass.cs:208-249 | a colour key is found exactly when it is one of `b,l,c,a,g,m,r,w,y,o`; a found key's colour is the one that key names; an unknown key gives white and not found |
| Tables.ColorKeyRoundTrip | ShipCustomizationExtended/ModBaseClass.cs:210-241 | each of the ten colours has a key, and that key resolves to that colour |
| Tables.LoadTexture | ShipCustomizationExtended/ModBaseClass.cs:296-313 | a file that exists gives the image of that file; a missing file gives the white texture |
| Tables.ProcessFlagTexture | ShipCustomizationExtended/ModBaseClass.cs:257-287 | a texture key is found exactly when it is one of `f,p,s,g,u`; a found key loads its flag's file, and it stays found even if the file is missing; an unknown key gives the white texture and not found |
| Tables.FlagKeyRoundTrip | ShipCustomizationExtended/ModBaseClass.cs:263-279 | each flag's key loads that flag's file, `flags\<Name>.png` |
| Tables.FlagFile | ShipCustomizationExtended/ModBaseClass.cs:259-279 | defines the file each flag is read from, `flags\<Name>.png`; its contract states that the file lies in the `flags` folder and ends in `.png`; `FlagKeyRoundTrip` and `FlagFileInjective` state the rest |
| Tables.FlagFileInjective | ShipCustomizationExtended/ModBaseClass.cs:259-279 | different flags are read from different files |
| Dispatcher.ProcessOperator | ShipCustomizationExtended/ModBaseClass.cs:133-200 | the value is used exactly for `S,L,R,F,D` when no exception is raised; an exception or any other operator gives "not used"; an apply call happens only when the value resolves; the call matches the operator; the colour or texture passed is the resolved one |
| Scanner.ValueAt | ShipCustomizationExtended/ModBaseClass.cs:113 | defines the value paired with an operator: the next character, or a blank at the last position; `DispatchPairing` states it of every dispatch |
| Scanner.Uses | ShipCustomizationExtended/ModBaseClass.cs:114 | defines when the dispatcher uses a value: a recognised operator whose handling does not throw, which is `ProcessOperator`'s contract for `used`; `SkipAfterDispatch` and `DirectivesFromOrdered` state its effect on the scan |
| Scanner.Next | ShipCustomizationExtended/ModBaseClass.cs:114 | defines where the scan goes on after a dispatch: two positions on when the value is used, one otherwise; `SkipAfterDispatch` and `DispatchOrder` state it of the dispatch sequence |
| Scanner.DirectivesFrom | ShipCustomizationExtended/ModBaseClass.cs:100-115 | defines the dispatches the scan makes from a position on, given whether a `#` has been met; its contract bounds them by one per remaining character; `DirectivesFromSound`, `DirectivesFromOrdered` and `DirectivesFromComplete` state its properties |
| Scanner.Directives | ShipCustomizationExtended/ModBaseClass.cs:99-115 | defines the dispatches the scan of a whole name makes, in order; its contract bounds them by one per character; `Scan` is proved equal to it, and `DispatchedExactly`, `DispatchPairing`, `DispatchOrder`, `SkipAfterDispatch`, `NoSentinelNoDispatch` and `NoDispatchBeforeSentinel` state its properties |
| Scanner.Scan | ShipCustomizationExtended/ModBaseClass.cs:99-115 | the loop makes exactly the dispatches `Directives` gives, in order, and the apply calls those dispatches cause |
| Scanner.DirectivesFromSound | ShipCustomizationExtended/ModBaseClass.cs:100-113 | every dispatch from a scan position on is at an in-range position; its operator is the character there and is never `#`; its value is the next character or a blank; a `#` comes before it |
| Scanner.DirectivesFromOrdered | ShipCustomizationExtended/ModBaseClass.cs:101-114 | dispatches are in scan order; after a dispatch whose value is used, the next one is at least two positions on |
| Scanner.DirectivesFromComplete | ShipCustomizationExtended/ModBaseClass.cs:101-114 | every non-`#` character after a `#` is either dispatched or used as the value of the dispatch just before it |
| Scanner.NoSentinelFrom | ShipCustomizationExtended/ModBaseClass.cs:103-109 | until a `#` is met, a suffix with no `#` makes no dispatch |
| Scanner.NoSentinelNoDispatch | ShipCustomizationExtended/ModBaseClass.cs:100-109 | a name with no `#` makes no dispatch at all |
| Scanner.NoDispatchBeforeSentinel | ShipCustomizationExtended/ModBaseClass.cs:103-109 | every dispatched operator has a `#` somewhere before it |
| Scanner.DispatchPairing | ShipCustomizationExtended/ModBaseClass.cs:112-113 | a dispatch at `i` has `name[i]` as its operator, which is never `#`; its value is `name[i+1]` unless `i` is the last position, where it is a blank |
| Scanner.DispatchOrder | ShipCustomizationExtended/ModBaseClass.cs:101-114 | dispatch positions strictly increase; a dispatch whose value is used is followed by one at least two positions on |
| Scanner.DispatchedExactly | ShipCustomizationExtended/ModBaseClass.cs:101-115 | a position reaches the dispatcher if and only if its character is not `#`, a `#` comes before it, and it is not the used value of the dispatch before it |
| Scanner.SkipAfterDispatch | ShipCustomizationExtended/ModBaseClass.cs:114 | when the value is used, exactly one character is skipped; otherwise none is, and the value character is read as the next operator unless it is `#` |
| Cache.NameCache.constructor | ShipCustomizationExtended/ModBaseClass.cs:16 | the memo starts empty |
| Cache.NameCache.ShouldProcess | ShipCustomizationExtended/ModBaseClass.cs:93 | a ship is processed unless it has an entry equal to its current name; the memo is not changed |
| Cache.NameCache.Commit | ShipCustomizationExtended/ModBaseClass.cs:117 | the ship's entry becomes the current name; all other entries are unchanged |
| Cache.NameCache.Clear | ShipCustomizationExtended/ModBaseClass.cs:77 | every entry is removed |
| Cache.Update | ShipCustomizationExtended/ModBaseClass.cs:72-79 | pressing Home empties the memo; otherwise the memo is unchanged |
| Cache.Tick | ShipCustomizationExtended/ModBaseClass.cs:82-124 | defines one tick over the ships in order: a ship whose name lookup throws ends the tick, an up-to-date ship is skipped, any other ship is processed and its entry set; its contract bounds the ships processed by the number of ships in the list; `ShipLoop` is proved equal to it, and `TickCompletes`, `TickCache`, `TickProcessed`, `TickIdle`, `SecondTickIdle` and `ClearForcesAll` state its properties |
| Cache.ShipLoop | ShipCustomizationExtended/ModBaseClass.cs:82-124 | the tick processes the ships `Tick` says, leaves the memo as `Tick` says, and reports whether it ran to the end; each processed ship's work is the full scan of its current name |
| Cache.Reached | ShipCustomizationExtended/ModBaseClass.cs:85-90 | the ships a tick reaches are a prefix of the ship list, all with names, and the ship right after that prefix (if any) has no name; when every ship has a name, the tick reaches all of them |
| Cache.TickCompletes | ShipCustomizationExtended/ModBaseClass.cs:85-123 | a tick runs to the end if and only if every ship's name can be looked up |
| Cache.TickCache | ShipCustomizationExtended/ModBaseClass.cs:93-117 | after a tick, every ship it reached has its current name as entry; entries of other ships are kept as they were, and no entry is added for them |
| Cache.TickProcessed | ShipCustomizationExtended/ModBaseClass.cs:93-97 | a tick processes a ship if and only if it reaches the ship and the ship's entry differs from its name; no ship is processed twice in one tick |
| Cache.TickIdle | ShipCustomizationExtended/ModBaseClass.cs:93-97 | a tick in which every ship it reaches is up to date processes nothing and leaves the memo unchanged |
| Cache.SecondTickIdle | ShipCustomizationExtended/ModBaseClass.cs:88-117 | a second tick with unchanged names processes nothing, leaves the memo unchanged and stops where the first stopped; this holds also when the first tick was cut short by a name lookup that throws |
| Cache.ClearForcesAll | ShipCustomizationExtended/ModBaseClass.cs:77-97 | after the memo is cleared, the next tick processes exactly the ships it reaches: a ship is processed if and only if the tick reaches it |
| Examples.SailBlack | ShipCustomizationExtended/ModBaseClass.cs:137-146 | `"Ship#Sb"` makes one dispatch, (`S`, `b`), and paints the sails black |
| Examples.UnknownFlag | ShipCustomizationExtended/ModBaseClass.cs:170-179 | `"Ship#Fx"` makes one dispatch, (`F`, `x`), and makes no apply call |
| Examples.UnknownOperatorAtEnd | ShipCustomizationExtended/ModBaseClass.cs:113 | `"Ship#Z"` makes one dispatch, (`Z`, blank), and makes no apply call |
| Examples.UnknownOperatorThenSail | ShipCustomizationExtended/ModBaseClass.cs:198-199 | in `"Ship#XSb"` the unknown `X` does not use its value, so `S` is then dispatched with `b` |
| Examples.FaultRereadsValue | ShipCustomizationExtended/ModBaseClass.cs:192-199 | if handling `S` in `"Ship#Sb"` throws, nothing is applied and `b` is dispatched as an operator |
| Examples.SentinelAsValue | ShipCustomizationExtended/ModBaseClass.cs:103-114 | in `"#F#Dp"` the second `#` is `F`'s value, not a sentinel; then `D`, `p` loads the PirateFrog file |

## Left out

- Logging (`ModLogger`, the logging levels and every `Log*` call) has no effect on the modelled behaviour, so it is left out.
- The timer (`InvokeRepeating`, every five seconds) is not modelled: `ShipLoop` is one tick.
- `Input.GetKeyDown` is a boolean parameter of `Update`.
- `GetShipNameFromTransform` and the `GameMode` ship list are parameters: the sequence of ships and the map `Host.names`. A ship missing from the map stands for a lookup that throws.
- `LoadTexture` reading the file, the 768×520 size, RGB24 and image decoding are left out. Only "the file exists" (it is in `assets`) gives an image of that file; a missing file gives white.
- The `Apply*` methods are host scene-graph code: the renderer search, the case-insensitive name matching and setting material colours and textures. Each call is an abstract `Effect`.
- Colour float values are left out, including orange (1, 0.5, 0). Colours are named.
- Which operations throw is an oracle: a set of scan positions per ship. The model does not say what makes the host throw.
- Dispatcher.ProcessOperator: when an `Apply*` call throws partway, the model records no effect. Changes made to the ship before the exception are not modelled.
- Cache.ShipLoop: only the name lookup is modelled as throwing outside `ProcessOperator`. Other exceptions in the tick body, such as from logging, are left out.
- The memo is keyed by Unity `Transform` reference. Here `ShipId` is a number, with equality standing for reference identity.
- Ship names are Dafny strings: sequences of Unicode scalar values. C# indexes `shipName` by UTF-16 code unit (lines 101, 103, 112-113). A character outside the Basic Multilingual Plane is one position in the model but two in the source. For `"#Z😀"` the source makes three dispatches: (`Z`, high surrogate), (high, low) and (low, blank). `Directives` makes two: (`Z`, 😀) and (😀, blank). Positions after such a character shift too. So `Directives`, `DispatchedExactly` and the other scanner lemmas describe the exact dispatch sequence only for names made of Basic Multilingual Plane characters. Surrogates are never operators and never table keys, so no apply call changes.
