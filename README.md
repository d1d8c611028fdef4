# Hire dialog: selection lock, silver payment and accept guards

This project models the non-drawing logic of `Dialog_Hire`, the hire-mercenaries dialog window (Source/VFECore/Misc/Dialog_Hire.cs). It covers three parts:

- **The selection state.** `hireData` maps every pawn kind of every hireable faction to a requested count and the text of its count field. `curFaction` is the faction currently locked. A pawn-kind row whose count changes may take the lock (the first positive count) or release it (the last of that faction's counts back to 0). While another faction holds the lock, the row's count adjuster is disabled. The invariant proved is: the lock is unset exactly when every count is 0, and every nonzero count belongs to the locked faction. So at most one faction has requests at any time.
- **The silver payment.** The accept step rounds the price to `remainingCost`. It then repeatedly takes `min(remainingCost, stackCount)` from the first silver stack that still holds silver. The payment is proved greedy in list order. No stack goes negative. Exactly the cost is removed when the stacks hold enough. Otherwise every stack is emptied, and the step ends where `First` throws.
- **The guards.** Accepting does nothing unless the day count is positive and some count is positive. When it goes through, it generates one pawn per requested unit, all of the locked faction's kinds. The Confirm button refuses when the final price is above the silver counted at opening, and then nothing changes. The silver check lives only in the Confirm button (lines 127-133). `OnAcceptKeyPressed` does not check it itself, so the model of the accept step has its own shortfall path.

Files:

- `wrappers.dfy`: `Option`.
- `silver_payment.dfy`: module `SilverPayment`. The greedy specification `Drain`, its lemmas, and the in-place loop `PaySilver` over an `array<nat>` of stack counts.
- `hire_selection.dfy`: module `HireSelection`. Factions, entries, the lock invariant, the assumed count adjuster, the row step and its lemmas.
- `dialog_hire.dfy`: module `DialogHire`. The class `Dialog` (the dialog's fields, updated in place) and the accept and confirm steps, with lemmas about their outcome.

Defs are identified by their defName. The constructor's `WellFormed` condition says two things. All pawn kinds are distinct, as `ToDictionary` at line 26 demands. Distinct defs have distinct names.

The count adjuster `UIUtility.DrawCountAdjuster` is not part of this model. Its assumed contract is the function `Adjust`:

- Disabled, it returns the entry it was given.
- Enabled, it returns the typed count clamped to the given bounds (0..999 for a pawn kind, 0..60 for days), with the typed text.

With this assumption, while another faction holds the lock, a row of any other faction changes nothing. So `Dialog.Edit` needs no enabling precondition: the disabled case is modelled, not excluded.

`Thing.SplitOff` and `Destroy` are not part of this model either. Splitting `num` items off a stack and destroying them is taken to lower that stack's count by `num`.

## Model

| member | source | states |
|---|---|---|
| `SilverPayment.FirstNonEmpty` | Source/VFECore/Misc/Dialog_Hire.cs:58 | the selected stack holds silver and every earlier stack is empty; None (where `First` throws) exactly when the stacks hold no silver at all |
| `SilverPayment.Drain` | Source/VFECore/Misc/Dialog_Hire.cs:56-62 | greedy outcome of paying `cost`: same number of stacks, unchanged when the cost is not positive |
| `SilverPayment.DrainRemovesCost` | Source/VFECore/Misc/Dialog_Hire.cs:59-61 | no stack grows or goes negative; the silver removed is the cost, or all there was when the stacks hold less |
| `SilverPayment.DrainIsGreedy` | Source/VFECore/Misc/Dialog_Hire.cs:58-60 | a stack is drawn from only when every earlier stack in the list is empty afterwards |
| `SilverPayment.DrainFromFirstNonEmpty` | Source/VFECore/Misc/Dialog_Hire.cs:57-61 | one loop turn (take `min(remaining, stack)` from the first non-empty stack) keeps the greedy outcome of the rest of the payment |
| `SilverPayment.PaySilver` | Source/VFECore/Misc/Dialog_Hire.cs:56-62 | the loop terminates (remaining strictly decreases), leaves the stacks at the greedy outcome, and succeeds exactly when the cost is at most the silver held; on failure the silver already removed stays removed |
| `HireSelection.AllKinds` | Source/VFECore/Misc/Dialog_Hire.cs:26 | lists every pawn kind of every listed faction (the keys the dictionary is built from) |
| `HireSelection.InitialIsCoherent` | Source/VFECore/Misc/Dialog_Hire.cs:26 | at opening every count is 0 and no faction is locked, so the lock invariant holds |
| `HireSelection.Initial` | Source/VFECore/Misc/Dialog_Hire.cs:26 | the dictionary built when the dialog opens: one entry per pawn kind of every faction, count 0 and empty text, and no lock |
| `HireSelection.Enabled` | Source/VFECore/Misc/Dialog_Hire.cs:181 | a faction's row adjusters are enabled unless a different faction holds the lock |
| `HireSelection.Adjust` | Source/VFECore/Misc/Dialog_Hire.cs:181 | assumed adjuster: disabled it returns the current entry; enabled its count is within the bounds and equals the typed count when that is within them |
| `HireSelection.EditStep` | Source/VFECore/Misc/Dialog_Hire.cs:182-186 | storing a changed entry keeps the set of dictionary keys |
| `HireSelection.RowStep` | Source/VFECore/Misc/Dialog_Hire.cs:178-187 | a drawn row with the player's input keeps the set of dictionary keys |
| `HireSelection.Replay` | Source/VFECore/Misc/Dialog_Hire.cs:166-187 | any sequence of row inputs keeps the set of dictionary keys |
| `HireSelection.LockedKindBelongsToDef` | Source/VFECore/Misc/Dialog_Hire.cs:185-186 | while a faction is locked, every kind with a nonzero count is one of that faction's kinds |
| `HireSelection.RowStepKeepsCoherent` | Source/VFECore/Misc/Dialog_Hire.cs:181-186 | a row input keeps counts within 0..999 and keeps the lock unset exactly when all counts are 0, every nonzero kind belonging to the locked faction |
| `HireSelection.RowStepTouchesOnlyItsKind` | Source/VFECore/Misc/Dialog_Hire.cs:182-184 | an edit leaves every other kind's entry unchanged |
| `HireSelection.DisabledRowChangesNothing` | Source/VFECore/Misc/Dialog_Hire.cs:181 | while another faction holds the lock, a row changes nothing |
| `HireSelection.PositiveCountTakesLock` | Source/VFECore/Misc/Dialog_Hire.cs:185 | a positive count entered while nothing is locked locks the edited kind's faction and stores the count clamped to 999 |
| `HireSelection.ZeroCountReleasesLock` | Source/VFECore/Misc/Dialog_Hire.cs:186 | setting a kind of the locked faction to 0 releases the lock exactly when all that faction's kinds are at 0; otherwise the lock stays on it |
| `HireSelection.ReplayKeepsCoherent` | Source/VFECore/Misc/Dialog_Hire.cs:181-186 | after any sequence of row inputs the lock invariant still holds |
| `HireSelection.OneFactionPerKind` | Source/VFECore/Misc/Dialog_Hire.cs:26 | with distinct dictionary keys, a pawn kind is offered by one faction only |
| `HireSelection.AtMostOneFactionRequested` | Source/VFECore/Misc/Dialog_Hire.cs:181-186 | in a coherent selection at most one faction has a kind with a nonzero count |
| `DialogHire.AnyRequested` | Source/VFECore/Misc/Dialog_Hire.cs:48 | some pawn kind has a positive count |
| `DialogHire.Proceeds` | Source/VFECore/Misc/Dialog_Hire.cs:48 | the accept step's guard: positive days and some positive count |
| `DialogHire.Roster` | Source/VFECore/Misc/Dialog_Hire.cs:67-71 | the pawns the nested loops generate: for each kind in dictionary order, as many pawns of that kind as its count |
| `DialogHire.RoundsTo` | Source/VFECore/Misc/Dialog_Hire.cs:52 | `Mathf.RoundToInt`: the integer cost is within one half of the final price |
| `DialogHire.AcceptOutcome` | Source/VFECore/Misc/Dialog_Hire.cs:48-83 | outcome of the accept step: skipped with the silver unchanged unless it proceeds; otherwise the stacks are drained greedily and the hire goes through with the roster, days, locked faction and cost exactly when the silver covered the cost, else payment fails |
| `DialogHire.RosterSize` | Source/VFECore/Misc/Dialog_Hire.cs:67-71 | with non-negative counts, the number of pawns generated is the sum of the requested counts |
| `DialogHire.RosterCounts` | Source/VFECore/Misc/Dialog_Hire.cs:67-71 | each listed kind gets exactly its requested count of pawns, any other kind none |
| `DialogHire.CoherentRoster` | Source/VFECore/Misc/Dialog_Hire.cs:67-71 | from a coherent selection, one pawn per requested unit, and only kinds with a nonzero count appear |
| `DialogHire.ProceedsRequestsPawns` | Source/VFECore/Misc/Dialog_Hire.cs:48 | when some count is positive, the total requested is positive |
| `DialogHire.NothingWithoutRequest` | Source/VFECore/Misc/Dialog_Hire.cs:48 | with no days or every count at 0, accepting spends no silver and hires nobody |
| `DialogHire.HiredAsRequested` | Source/VFECore/Misc/Dialog_Hire.cs:48-83 | a hire that goes through removes exactly the rounded cost, has positive days, generates one pawn per requested unit (at least one), records the locked faction, and every pawn is of that faction's kinds |
| `DialogHire.PaymentFailsOnShortfall` | Source/VFECore/Misc/Dialog_Hire.cs:56-62 | the accept step fails to pay only when it proceeds and the cost is above the silver held, and then every stack is empty |
| `DialogHire.ConfirmedPriceIsCovered` | Source/VFECore/Misc/Dialog_Hire.cs:129-132 | a final price that passes the Confirm check rounds to a cost the stacks cover when they still hold the silver counted at opening |
| `DialogHire.Dialog.constructor` | Source/VFECore/Misc/Dialog_Hire.cs:22-33 | opens with every kind at 0 and an empty buffer, no lock, no days, and the invariant established |
| `DialogHire.Dialog.Edit` | Source/VFECore/Misc/Dialog_Hire.cs:178-187 | the selection becomes the row step of the old selection, the invariant is kept and the days are unchanged |
| `DialogHire.Dialog.SetDays` | Source/VFECore/Misc/Dialog_Hire.cs:113 | the day count becomes the typed value clamped to 0..60; the selection is unchanged |
| `DialogHire.Dialog.GeneratePawns` | Source/VFECore/Misc/Dialog_Hire.cs:67-71 | the nested loops produce the roster, kind by kind, one pawn per requested unit |
| `DialogHire.Dialog.Accept` | Source/VFECore/Misc/Dialog_Hire.cs:43-85 | skipped with the silver unchanged unless days and some count are positive; otherwise the stacks are drained greedily and, if they covered the cost, the contract holds the generated pawns, the days, the locked faction and the cost |
| `DialogHire.Dialog.Confirm` | Source/VFECore/Misc/Dialog_Hire.cs:127-133 | rejected, with the silver unchanged, exactly when the final price is above the silver counted at opening; otherwise the outcome is the accept step's |

## Left out

- The price formula `CostBase`/`CostFinal` (lines 38-41) uses floating-point `Mathf.Pow` and the tracker's risk factor. The price is an input: `costFinal` as a real number and `cost` as its rounding. `RoundsTo` states only that they are within one half of each other. Banker's rounding of exact halves is not modelled.
- Counting `availableSilver` and building the silver list (lines 30-31, 54-55) are map queries about fog, home area and storage. Both are inputs.
- The contract tracker (lines 32 and 83) is an engine world component. `SetNewContract` is represented by the returned `Contract` value.
- `DialogHire.Dialog.Accept`: records the rounded cost in the contract, where the source passes the float `CostFinal`.
- All drawing and layout in `DoWindowContents` and `DoHireableFaction` is left out. So are the sound at line 46, the rejection message at line 130 (the `Rejected` result stands for it) and `base.OnAcceptKeyPressed`, which closes the window.
- Pawn generation, entry-cell and landing-spot search, and drop pods (lines 64-80) are engine calls. A generated pawn is represented by its kind.
- `UIUtility.DrawCountAdjuster` is not part of this model. Only its assumed contract (`Adjust`) is stated. The day count's text buffer `daysAmountBuffer` is not kept.
- `Thing.SplitOff` and `Thing.Destroy` are engine code. The model assumes splitting `num` items off a stack lowers its count by `num`. A split that took a whole stack but left its count unchanged would make the loop draw again from that destroyed stack; that case is not modelled.
- `DialogHire.Dialog.constructor`: requires distinct pawn kinds and distinct faction names. With a duplicate kind, `ToDictionary` throws and no dialog exists; that failure is not modelled.
- The order of pawn generation follows the dictionary's enumeration, taken to be insertion order (faction by faction, kind by kind).
- Source/VFECore/Abilities/ModExtensions/AbilityExtension_RandomPowerMultiplier.cs only holds a `FloatRange` field with no logic. The multiplication it describes happens elsewhere, with a floating-point random draw.
