# Electron Cash: address list, new-wallet wizard and CashFusion Qt logic in Dafny

This project models, and proves properties of, the sequential decision logic
inside three user-interface files of Electron Cash.

- **Address list of the iOS wallet** (`addresses.py`). `AddressData` files
  every receiving and change address into a 3 x 4 table. The rows are the
  address types Any, Receiving and Change. The columns are the statuses All,
  Funded, Unused and Used. Each cell is then sorted by balance, then by
  number of transactions, largest first, then by index within its own
  address list, smallest first. This part also covers the `EntryForAddress`
  lookup, the row-count and tapped-row guards of the table view, and the
  name-to-index dictionaries.
- **New-wallet wizard of the iOS wallet** (`newwallet.py`). It covers:
  - the name and password form, with its ordered error messages;
  - the shared navigation parameters, where a falsy value removes a key;
  - the seed display screen, which goes on only once a seed exists;
  - the seed retype screen: the current word and prefix, the enabled
    keyboard keys, the choice of up to four suggestion buttons, the text a
    button writes, and the final seed comparison;
  - the onboarding pages' before, after and count lookups.
- **CashFusion plugin, Qt side** (`plugins/fusion/qt.py`). It covers:
  - the de-duplicated server-status signal and the server-error query;
  - the cached-password decision and the password dialog's check;
  - the autofuse toggle and the switch to a new password;
  - shutting a wallet down: every fusion is stopped before any is joined;
  - the settings edits that ask fusions to stop;
  - the fusions window's newest-first order and its context menu.

The files are:

- `addresses.dfy` (module `Addresses`).
- `newwallet.dfy` (module `NewWallet`).
- `fusion.dfy` (module `FusionQt`).
- Three support modules:
  - `sorting.dfy`: Python's stable `sort`/`sorted`, as a stable insertion sort with its permutation, order and stability lemmas.
  - `words.dfy`: Python's `str.split`, `' '.join`, `strip` and `lower`.
  - `wrappers.dfy`: `Option` and `Result`.

State the source changes in place is a `class` whose methods carry
`modifies` clauses: `AddressData`, the new-wallet form, the navigation
controller, the seed retype screen, the plugin, and the fusion side of a
wallet. Each method's `ensures` ties the new state to a specification
function. Lemmas prove the promised properties of those functions.

Inputs from outside these files are modelled as follows:

- Wallet-library results: what the wallet reports about each address (`AddressInfo`), and whether a wallet name already exists.
- `utils.pathsafeify` and `Mnemonic.get_suggestions`: function-valued parameters.
- The random choice of suggestions: a nondeterministic draw.
- `check_password`: comparison with the wallet's current password.
- `FusionPlugin`'s `enable_autofusing`, `disable_autofusing` and `remove_wallet`: abstract state transitions on `FusionQt.Wallet`.

Two settings edits stop more fusions than only the ones they make surplus:

- Lowering the queued-autofuse limit asks every auto-fusion of the wallet to stop, with `not_if_running=True` (`qt.py:1025-1032`).
- Changing the self-fuse setting asks every fusion of the wallet to stop, with `not_if_running=True` (`qt.py:1038-1047`).

## Model

| member | source | states |
|---|---|---|
| Addresses.IndexByName | ios/ElectronCash/electroncash_gui/ios_native/addresses.py:21-29 | every name is a key, it maps to a position holding that name, and no later position holds it (the last occurrence wins) |
| Addresses.NameTables | ios/ElectronCash/electroncash_gui/ios_native/addresses.py:21-29 | the dictionaries built from `_TYPES` and `_STATUSES` map each name to the index constant the model uses |
| Addresses.TypeIndices | ios/ElectronCash/electroncash_gui/ios_native/addresses.py:21-26 | any map `IndexByName` can return for the three type names is Any 0, Receiving 1, Change 2 |
| Addresses.StatusIndices | ios/ElectronCash/electroncash_gui/ios_native/addresses.py:21-29 | any map `IndexByName` can return for the four status names is All 0, Funded 1, Unused 2, Used 3 |
| Addresses.AddressData.constructor | ios/ElectronCash/electroncash_gui/ios_native/addresses.py:720-726 | a new `AddressData` is the cleared 3 x 4 table with fiat display off |
| Addresses.AddressData.Clear | ios/ElectronCash/electroncash_gui/ios_native/addresses.py:724-726 | after `clear` the table is 3 x 4 empty cells and `show_fx` is false |
| Addresses.AddressData.Append | ios/ElectronCash/electroncash_gui/ios_native/addresses.py:767-777 | one `append` adds the entry at the end of exactly one cell and changes no other cell |
| Addresses.AddressData.AppendPair | ios/ElectronCash/electroncash_gui/ios_native/addresses.py:767-777 | a pair of appends puts the entry at the end of the status cell under Any and under its own type, and changes no other cell (`AddStatus`) |
| Addresses.AddressData.Place | ios/ElectronCash/electroncash_gui/ios_native/addresses.py:767-777 | the appends for one entry put it in exactly the cells whose type and status it matches (`AddItem`) |
| Addresses.AddressData.FileList | ios/ElectronCash/electroncash_gui/ios_native/addresses.py:750-777 | the inner loop over one address list files its entries, in order, after those already filed |
| Addresses.AddressData.SortCells | ios/ElectronCash/electroncash_gui/ios_native/addresses.py:780-782 | every cell is replaced by its stable sort under the display key |
| Addresses.AddressData.Refresh | ios/ElectronCash/electroncash_gui/ios_native/addresses.py:728-782 | with no wallet the table is left cleared; otherwise `show_fx` follows the fiat setting and every cell is the sorted bucket of all receiving then change entries (`Table`) |
| Addresses.AddItemByStatus | ios/ElectronCash/electroncash_gui/ios_native/addresses.py:767-777 | the four status pairs of appends (All always, Funded iff the balance is nonzero, then Used or Unused) amount to filing the entry with `AddItem` |
| Addresses.PlacedAppend | ios/ElectronCash/electroncash_gui/ios_native/addresses.py:767-777 | filing one more entry extends each cell exactly as the per-entry appends do |
| Addresses.BucketCount | ios/ElectronCash/electroncash_gui/ios_native/addresses.py:767-777 | a cell holds each entry as often as the entry occurs if it belongs in that cell, and never otherwise |
| Addresses.BucketAnyAll | ios/ElectronCash/electroncash_gui/ios_native/addresses.py:767 | the Any/All bucket is every entry, in the order processed |
| Addresses.Bucket | ios/ElectronCash/electroncash_gui/ios_native/addresses.py:767-777 | the entries filed into one cell, in filing order; `BucketCount` and `BucketAnyAll` give its contents |
| Addresses.TableCount | ios/ElectronCash/electroncash_gui/ios_native/addresses.py:767-782 | after sorting, a cell still holds exactly the entries that belong in it, with their multiplicities |
| Addresses.Table | ios/ElectronCash/electroncash_gui/ios_native/addresses.py:748-782 | the table `refresh` leaves, every cell its sorted bucket; `TableCount`, `CellsOrdered` and the partition lemmas state its contents |
| Addresses.KeyGeIsPreorder | ios/ElectronCash/electroncash_gui/ios_native/addresses.py:782 | the key `[balance, num_tx, -addr_idx]` compared in reverse is total and transitive |
| Addresses.KeyGe | ios/ElectronCash/electroncash_gui/ios_native/addresses.py:782 | the order of the key `[balance, num_tx, -addr_idx]` with `reverse=True`; `KeyGeIsPreorder` proves it total and transitive |
| Addresses.AnyAllHoldsEveryEntry | ios/ElectronCash/electroncash_gui/ios_native/addresses.py:748-767 | `master[0][0]` is a permutation of all entries, and its length is their number |
| Addresses.TypeCellsSplitAny | ios/ElectronCash/electroncash_gui/ios_native/addresses.py:767-777 | Receiving cells hold only non-change entries and Change cells only change entries; for every status the Any cell is their multiset union |
| Addresses.FundedIsNonzeroBalance | ios/ElectronCash/electroncash_gui/ios_native/addresses.py:769-771 | a Funded cell holds exactly the entries of its type with a nonzero balance |
| Addresses.UsedUnusedPartition | ios/ElectronCash/electroncash_gui/ios_native/addresses.py:772-777 | Unused holds only entries with no transactions and Used only entries with some; together they are the All cell; the `is_used` flag plays no part |
| Addresses.CellsOrdered | ios/ElectronCash/electroncash_gui/ios_native/addresses.py:780-782 | every cell is ordered by balance, then num_tx, descending, then index ascending; entries with equal keys keep the order they were filed in |
| Addresses.EntriesNumbered | ios/ElectronCash/electroncash_gui/ios_native/addresses.py:748-765 | there is one entry per receiving and change address, and `addr_idx` is the address's position in its own list |
| Addresses.MakeEntry | ios/ElectronCash/electroncash_gui/ios_native/addresses.py:751-763 | the `Entry` for one address at its position, with the fiat string only when fiat display is on; `EntriesNumbered` states its fields |
| Addresses.FirstWithAddressFinds | ios/ElectronCash/electroncash_gui/ios_native/addresses.py:810-815 | the search finds nothing iff no entry has the address, and otherwise the first entry that has it |
| Addresses.EntryForAddress | ios/ElectronCash/electroncash_gui/ios_native/addresses.py:801-817 | an error iff there is no addresses screen; None without address data; otherwise the first Any/All entry whose address equals the query |
| Addresses.PyIndex | ios/ElectronCash/electroncash_gui/ios_native/addresses.py:412 | a selector value indexes a list of length n iff -n <= i < n, and then denotes i or i + n |
| Addresses.RowCount | ios/ElectronCash/electroncash_gui/ios_native/addresses.py:409-415 | zero rows iff there is no data or a selector is out of range; otherwise `max(1, len(cell))` |
| Addresses.SelectRow | ios/ElectronCash/electroncash_gui/ios_native/addresses.py:529-547 | a tapped row yields an entry iff the row is inside the selected cell, and the entry is from that cell |
| Addresses.ShownRowsAreSafe | ios/ElectronCash/electroncash_gui/ios_native/addresses.py:536-538 | of the rows shown, only the "No Match" row of an empty cell selects nothing |
| Sorting.SortPermutes | ios/ElectronCash/electroncash_gui/ios_native/addresses.py:782 | sorting neither loses nor invents elements (multiset and length kept) |
| Sorting.SortSorted | ios/ElectronCash/electroncash_gui/ios_native/addresses.py:782 | for a total preorder key the result is ordered largest key first |
| Sorting.SortStable | ios/ElectronCash/electroncash_gui/ios_native/addresses.py:782 | elements with equal keys keep their relative order (Python's sort is stable) |
| Sorting.SortOfSorted | ios/ElectronCash/electroncash_gui/ios_native/addresses.py:782 | an already ordered list is left unchanged |
| Sorting.SortBy | ios/ElectronCash/electroncash_gui/ios_native/addresses.py:782 | `list.sort(key, reverse=True)` as a stable insertion sort; its meaning is given by `SortPermutes`, `SortSorted` and `SortStable` |
| Words.TrailingWordLen | ios/ElectronCash/electroncash_gui/ios_native/newwallet.py:253-256 | the length of the last word is within the text, and at least one when the text ends in a non-space |
| Words.SplitGivesWords | ios/ElectronCash/electroncash_gui/ios_native/newwallet.py:253 | every piece `split()` returns is non-empty and free of whitespace |
| Words.SplitAtSpace | ios/ElectronCash/electroncash_gui/ios_native/newwallet.py:253 | a whitespace character separates: both sides split independently |
| Words.SplitJoin | ios/ElectronCash/electroncash_gui/ios_native/newwallet.py:301 | joining words with single spaces and splitting again gives the words back |
| Words.SplitStrip | ios/ElectronCash/electroncash_gui/ios_native/newwallet.py:360 | stripping surrounding whitespace does not change the split |
| Words.SplitLower | ios/ElectronCash/electroncash_gui/ios_native/newwallet.py:360 | lower-casing then splitting is splitting then lower-casing each word |
| Words.LowerJoin | ios/ElectronCash/electroncash_gui/ios_native/newwallet.py:301 | lower-casing a joined text is joining the lower-cased words |
| Words.SplitBlank | ios/ElectronCash/electroncash_gui/ios_native/newwallet.py:251-257 | a text splits into no words exactly when it is all whitespace |
| Words.LowerIdempotent | ios/ElectronCash/electroncash_gui/ios_native/newwallet.py:250 | lower-casing twice is lower-casing once |
| Words.Split | ios/ElectronCash/electroncash_gui/ios_native/newwallet.py:253 | `str.split()`, the maximal runs of non-whitespace in order; its meaning is given by `SplitGivesWords`, `SplitAtSpace`, `SplitBlank` and `SplitJoin` |
| Words.Join | ios/ElectronCash/electroncash_gui/ios_native/newwallet.py:301 | `' '.join`; `SplitJoin` proves splitting inverts it on words |
| Words.Lower | ios/ElectronCash/electroncash_gui/ios_native/newwallet.py:251 | `str.lower()` keeps the length |
| Words.LowerMeaning | ios/ElectronCash/electroncash_gui/ios_native/newwallet.py:251 | after lower-casing no ASCII capital remains, and every other character is kept |
| Words.Strip | ios/ElectronCash/electroncash_gui/ios_native/newwallet.py:360 | `str.strip()` never lengthens the text |
| Words.StripRightMeaning | ios/ElectronCash/electroncash_gui/ios_native/newwallet.py:360 | `rstrip` keeps the longest prefix not ending in whitespace and drops only whitespace |
| Words.StripLeftMeaning | ios/ElectronCash/electroncash_gui/ios_native/newwallet.py:360 | `lstrip` keeps the longest suffix not starting with whitespace and drops only whitespace |
| Words.StripMeaning | ios/ElectronCash/electroncash_gui/ios_native/newwallet.py:360 | a stripped text has whitespace at neither end |
| NewWallet.FormCheck | ios/ElectronCash/electroncash_gui/ios_native/newwallet.py:87-102 | the form passes iff the name is non-empty and new, and password 1 is non-empty and equals password 2; otherwise the message is for the first failing check, each outcome given as an iff |
| NewWallet.TruncatedName | ios/ElectronCash/electroncash_gui/ios_native/newwallet.py:78 | `[:30]` gives a prefix of at most 30 characters, the whole name when it is short enough |
| NewWallet.NewWalletForm.EndEditing | ios/ElectronCash/electroncash_gui/ios_native/newwallet.py:76-79 | leaving the name field leaves at most 30 characters, a prefix of the path-safe name; other fields are untouched |
| NewWallet.NewWalletForm.ChkFormOk | ios/ElectronCash/electroncash_gui/ios_native/newwallet.py:87-102 | the name is made path-safe; the result is true iff `FormCheck` passes; the error view is hidden exactly then; a failure shows its message |
| NewWallet.NewWalletForm.PrepareForSegue | ios/ElectronCash/electroncash_gui/ios_native/newwallet.py:111-114 | the name and the confirming password go into the parameters |
| NewWallet.AfterSetParam | ios/ElectronCash/electroncash_gui/ios_native/newwallet.py:450-456 | a falsy value removes the key, any other is stored under it, and every other key is unchanged |
| NewWallet.SetParamIdempotent | ios/ElectronCash/electroncash_gui/ios_native/newwallet.py:450-456 | setting the same value twice is setting it once |
| NewWallet.SetParamCommutes | ios/ElectronCash/electroncash_gui/ios_native/newwallet.py:450-456 | setting two different keys gives the same result in either order |
| NewWallet.Navigation.SetParam | ios/ElectronCash/electroncash_gui/ios_native/newwallet.py:450-456 | the controller's parameters become `AfterSetParam` of the old ones |
| NewWallet.PrepareSeedSegue | ios/ElectronCash/electroncash_gui/ios_native/newwallet.py:176-184 | `seed` and its split word list are stored and handed to the retype screen |
| NewWallet.SeedReady | ios/ElectronCash/electroncash_gui/ios_native/newwallet.py:171-172 | the seed screen goes on only when a non-empty seed exists; `WizardCreatesWallet` uses it |
| NewWallet.WordPosition | ios/ElectronCash/electroncash_gui/ios_native/newwallet.py:251-257 | no position (the `words[-1]` failure) iff the text is non-empty, all whitespace and does not end in `' '`; an empty text or one ending in `' '` gives the word count and an empty prefix; any other text with words gives the last word as the prefix and the count of the words before it |
| NewWallet.WordPositionAfterNewline | ios/ElectronCash/electroncash_gui/ios_native/newwallet.py:255-257 | only `' '` ends a word: `"abc\n"` still has `"abc"` as its prefix, at word 0 |
| NewWallet.WordPositionAfterSpace | ios/ElectronCash/electroncash_gui/ios_native/newwallet.py:252-254 | `"abc "` is at word 1 with an empty prefix |
| NewWallet.PositionInWord | ios/ElectronCash/electroncash_gui/ios_native/newwallet.py:254-256 | for text ending inside a word, the word number is the word count minus one and the prefix is the last word |
| NewWallet.CurrentSeedWord | ios/ElectronCash/electroncash_gui/ios_native/newwallet.py:278-284 | the expected word at that position, or "TOO MANY WORDS!" past the end of the seed |
| NewWallet.EnabledKeys | ios/ElectronCash/electroncash_gui/ios_native/newwallet.py:262-270 | backspace is enabled, and a letter key is enabled iff it is a valid character |
| NewWallet.CollectValidChars | ios/ElectronCash/electroncash_gui/ios_native/newwallet.py:264-268 | the loop collects exactly the upper-cased character at `len(prefix)` of every longer suggestion |
| NewWallet.ValidChars | ios/ElectronCash/electroncash_gui/ios_native/newwallet.py:264-268 | the upper-cased characters at `len(prefix)` of the longer suggestions; `ValidCharsContinuePrefix` states what they mean |
| NewWallet.ValidCharsContinuePrefix | ios/ElectronCash/electroncash_gui/ios_native/newwallet.py:264-268 | for lower-case suggestions extending the prefix, a letter is valid iff typing it keeps some suggestion reachable |
| NewWallet.ChooseSuggestions | ios/ElectronCash/electroncash_gui/ios_native/newwallet.py:288-294 | the buttons are a subset of the suggestions of size `min(len, 4)`, containing the expected word whenever it is offered |
| NewWallet.TapCompletesWord | ios/ElectronCash/electroncash_gui/ios_native/newwallet.py:301 | a tapped suggestion's text splits into the earlier words plus the tapped one, lower-cased, and the screen moves to the next word with an empty prefix |
| NewWallet.TapText | ios/ElectronCash/electroncash_gui/ios_native/newwallet.py:301 | the text a suggestion button writes always ends in `' '`; `TapCompletesWord` and `TapAppendsWord` give its words |
| NewWallet.TapAppendsWord | ios/ElectronCash/electroncash_gui/ios_native/newwallet.py:301 | tapping the next word of a lower-case seed extends the typed text by that word and a space |
| NewWallet.SeedMatchesWords | ios/ElectronCash/electroncash_gui/ios_native/newwallet.py:360 | the comparison holds iff the seed list equals the lower-cased words of the text; surrounding whitespace and case do not matter |
| NewWallet.SeedMatches | ios/ElectronCash/electroncash_gui/ios_native/newwallet.py:360 | the retyped seed comparison; `SeedMatchesWords` states what it accepts |
| NewWallet.RetypedSeedMatches | ios/ElectronCash/electroncash_gui/ios_native/newwallet.py:360 | typing every word of a lower-case seed back, separated by spaces, is accepted |
| NewWallet.NextStep | ios/ElectronCash/electroncash_gui/ios_native/newwallet.py:350-373 | dismiss iff done; mismatch iff not done and the seed does not match; create the wallet from the stored name, password and seed iff it matches and all three are present |
| NewWallet.WizardCreatesWallet | ios/ElectronCash/electroncash_gui/ios_native/newwallet.py:360-373 | a passing form, a ready seed (`shouldPerformSegue`, lines 171-172) and a matching retype create the wallet with the form's name, confirmed password and seed |
| NewWallet.SeedRetype.DoSuggestions | ios/ElectronCash/electroncash_gui/ios_native/newwallet.py:250-332 | the keys, buttons and captured words follow the current text; fewer than ten suggestions give a valid choice, and more give no buttons; the failing case changes nothing |
| NewWallet.SeedRetype.TapSuggestion | ios/ElectronCash/electroncash_gui/ios_native/newwallet.py:297-303 | a button writes `TapText` of the words it captured and refreshes the screen |
| NewWallet.SeedRetype.OnNext | ios/ElectronCash/electroncash_gui/ios_native/newwallet.py:350-365 | the action is `NextStep`; a mismatch shows the error view and hides the info view; nothing else changes |
| NewWallet.SeedRetype.OnWalletCreated | ios/ElectronCash/electroncash_gui/ios_native/newwallet.py:378-379 | after creation the screen is done, so later taps of Next only dismiss |
| NewWallet.PageBefore | ios/ElectronCash/electroncash_gui/ios_native/newwallet.py:548-554 | the loop's result is `Before`, the page preceding the last occurrence of `vc` past the first slot |
| NewWallet.Before | ios/ElectronCash/electroncash_gui/ios_native/newwallet.py:548-554 | the page before the last occurrence of `vc`; `BeforeSome`, `BeforeAt` and `BeforeUndoesAfter` state its meaning |
| NewWallet.PageAfter | ios/ElectronCash/electroncash_gui/ios_native/newwallet.py:558-564 | the loop's result is `After`, the page following the last occurrence of `vc` before the last slot |
| NewWallet.After | ios/ElectronCash/electroncash_gui/ios_native/newwallet.py:558-564 | the page after the last occurrence of `vc`; `AfterAt` and `AfterAbsent` state its meaning |
| NewWallet.BeforeSome | ios/ElectronCash/electroncash_gui/ios_native/newwallet.py:548-554 | there is a page before iff `vc` occurs at some index above zero |
| NewWallet.BeforeAt | ios/ElectronCash/electroncash_gui/ios_native/newwallet.py:548-554 | for distinct pages, the page before page i is page i-1, and the first page has none |
| NewWallet.AfterAt | ios/ElectronCash/electroncash_gui/ios_native/newwallet.py:558-564 | for distinct pages, the page after page i is page i+1, and the last page has none |
| NewWallet.AfterAbsent | ios/ElectronCash/electroncash_gui/ios_native/newwallet.py:558-564 | a page not in the list has no page after it |
| NewWallet.BeforeUndoesAfter | ios/ElectronCash/electroncash_gui/ios_native/newwallet.py:548-564 | paging forward and then back returns to the same page |
| NewWallet.PresentationCount | ios/ElectronCash/electroncash_gui/ios_native/newwallet.py:540-541 | the page count is the number of pages, 0 when there is no list |
| FusionQt.ServerError | plugins/fusion/qt.py:287-291 | the detail pair iff the stored flag is false, None otherwise |
| FusionQt.InitiallyNoError | plugins/fusion/qt.py:72 | the initial status reports no server error |
| FusionQt.ChangesNeverRepeat | plugins/fusion/qt.py:279-285 | consecutive signals differ, the first differs from the initial status, the last is the stored status, and every signal was notified |
| FusionQt.Changes | plugins/fusion/qt.py:279-285 | the signals sent for a run of notifications, never more than the notifications; `ChangesNeverRepeat` and `RepeatIsSilent` state which |
| FusionQt.RepeatIsSilent | plugins/fusion/qt.py:279-285 | notifying the same status twice in a row signals it at most once |
| FusionQt.Plugin.constructor | plugins/fusion/qt.py:72 | the plugin starts with status "Ok", nothing forwarded or signalled |
| FusionQt.Plugin.GetServerError | plugins/fusion/qt.py:287-291 | there is an error iff the stored status flag is false |
| FusionQt.Plugin.NotifyServerStatus | plugins/fusion/qt.py:279-285 | always forwards; stores and signals only a status different from the stored one; keeps the signal log equal to `Changes` of all notifications |
| FusionQt.Plugin.OnCloseWindow | plugins/fusion/qt.py:199-217 | autofuse is off, and the log gains `stop('Closing wallet')` for each of the wallet's fusions, then `join` for each (`CloseEvents`); nothing else of the wallet changes |
| FusionQt.Plugin.OnNewPassword | plugins/fusion/qt.py:220-228 | nothing changes unless autofusing; otherwise autofuse stays on with the new password iff the wallet accepts it, and is switched off if not |
| FusionQt.Plugin.ToggleAutofuse | plugins/fusion/qt.py:562-589 | on: switch off and stop the running auto-fusions only if some exist and the user agrees, leaving the password cache alone; off: a wallet with a password but no window raises; a password accepted in the dialog is cached (`CacheAfterDialog`); a cancelled dialog or inactive plugin leaves autofuse as it was; otherwise autofuse is on iff the password tried is accepted |
| FusionQt.Plugin.ToggleOff | plugins/fusion/qt.py:580-589 | autofuse is off and the log gains the user stops `StopsOnToggleOff` prescribes |
| FusionQt.Plugin.ToggleOn | plugins/fusion/qt.py:565-579 | the cached-password decision, then the dialog's password, which is cached when accepted (`CacheAfterDialog`), then `enable_autofusing`, with a refused password ignored |
| FusionQt.CacheAfterDialog | plugins/fusion/qt.py:445-448 | the cache changes only when the dialog was shown and returned a password, and then holds that password |
| FusionQt.DialogPasswordReused | plugins/fusion/qt.py:316-339 | after the dialog accepted a password, the next switch-on finds it in the cache and tries it without asking, while the GUI cache still holds it |
| FusionQt.CachedPw | plugins/fusion/qt.py:316-333 | `(False, None)` without a password; an error without a window; otherwise `(True, pw)` with the cached password iff it passes the check |
| FusionQt.ChkPass | plugins/fusion/qt.py:452-460 | true iff the wallet has no password or the typed one passes the check |
| FusionQt.PasswordToTry | plugins/fusion/qt.py:565-575 | with a password needed and none cached, give up iff the dialog was cancelled or the plugin went inactive, else try the typed one; otherwise try the cached value |
| FusionQt.ToggleOnPasswordAccepted | plugins/fusion/qt.py:565-579 | any password `toggle_autofuse` goes on to try is accepted, given the dialog only returns passwords that pass `_chk_pass` |
| FusionQt.StopAll | plugins/fusion/qt.py:208-209 | one `stop` per fusion, in the fusions' order |
| FusionQt.JoinAll | plugins/fusion/qt.py:213-215 | one `join` per fusion, in the fusions' order |
| FusionQt.CloseStopsBeforeJoins | plugins/fusion/qt.py:204-217 | closing a wallet stops every fusion before joining any, joins every one, and touches no other |
| FusionQt.CloseEvents | plugins/fusion/qt.py:204-217 | two calls per fusion of a closed wallet; `CloseStopsBeforeJoins` states their order |
| FusionQt.AutoFusions | plugins/fusion/qt.py:1030 | `_fusions_auto` holds exactly the wallet's fusions started by autofuse |
| FusionQt.RunningAuto | plugins/fusion/qt.py:580 | the fusions `disable_autofusing` returns are exactly the running auto-fusions |
| FusionQt.StopsOnToggleOff | plugins/fusion/qt.py:580-589 | the user stops sent when autofuse is switched off; `ToggleOff` and `ToggleAutofuse` record them |
| FusionQt.QueuedLimitStopsSpec | plugins/fusion/qt.py:1025-1032 | stops are sent only when the limit went down, and then to every auto-fusion, each with `not_if_running` |
| FusionQt.QueuedLimitStops | plugins/fusion/qt.py:1025-1032 | the stops `edited_queued_autofuse` sends; `QueuedLimitStopsSpec` states which |
| FusionQt.SelfFuseStopsSpec | plugins/fusion/qt.py:1038-1047 | stops are sent only when the selection changed, and then to every fusion, each with `not_if_running` |
| FusionQt.SelfFuseStops | plugins/fusion/qt.py:1038-1047 | the stops `chose_self_fuse` sends; `SelfFuseStopsSpec` states which |
| FusionQt.SizeSetting | plugins/fusion/qt.py:1007-1012 | the stored size is at least 10000, equals the amount when that is large enough, and is 10000 otherwise |
| FusionQt.Wallet.GetCachedPw | plugins/fusion/qt.py:316-333 | the method computes `CachedPw` of the wallet's state |
| FusionQt.Wallet.CachePw | plugins/fusion/qt.py:335-339 | the password is cached iff the wallet has a window; otherwise the cache is unchanged |
| FusionQt.Wallet.EnableAutofusing | plugins/fusion/qt.py:575-578 | accepted iff the wallet accepts the password, and then autofuse holds it; a refusal changes nothing |
| FusionQt.Wallet.DisableAutofusing | plugins/fusion/qt.py:580 | autofuse is off and the running auto-fusions are returned |
| FusionQt.Wallet.RemoveWallet | plugins/fusion/qt.py:204 | the wallet's fusions are handed back and autofuse is off |
| FusionQt.Wallet.StopEach | plugins/fusion/qt.py:208-209 | the loop records one `stop` per fusion, in order, each with the given reason and `not_if_running` flag (`StopAll`) |
| FusionQt.Wallet.JoinEach | plugins/fusion/qt.py:213-215 | the loop records one `join` per fusion, in order (`JoinAll`) |
| FusionQt.Wallet.EditedSize | plugins/fusion/qt.py:1007-1012 | the stored selector is by size, with `SizeSetting` of the amount |
| FusionQt.Wallet.EditedCount | plugins/fusion/qt.py:1020-1023 | the stored selector is by count, with the spin box value |
| FusionQt.Wallet.ClickedConfirmedOnly | plugins/fusion/qt.py:1034-1036 | the confirmed-only flag is stored |
| FusionQt.Wallet.EditedQueuedAutofuse | plugins/fusion/qt.py:1025-1032 | the new limit is stored, and the log gains `QueuedLimitStops` against the stored limit or its default |
| FusionQt.Wallet.ChoseSelfFuse | plugins/fusion/qt.py:1038-1047 | the new selection is stored, and the log gains `SelfFuseStops` against the stored selection or its default |
| FusionQt.FusionsNewestFirst | plugins/fusion/qt.py:1184 | the window lists every fusion exactly once, newest start time first, with equal times in the plugin's order |
| FusionQt.FusionsOrder | plugins/fusion/qt.py:1184 | the fusions sorted by start time, newest first; `FusionsNewestFirst` states its order |
| FusionQt.FirstLive | plugins/fusion/qt.py:1203-1206 | a fusion of the selection still alive, if there is one |
| FusionQt.MenuFor | plugins/fusion/qt.py:1198-1222 | Cancel iff some selected fusion is running or waiting, labelled "at end of round" iff some is running; View tx iff exactly one fusion is selected and it has a txid; nothing is shown for an empty selection |
| FusionQt.CancelStops | plugins/fusion/qt.py:1210-1212 | Cancel asks every selected fusion that still exists to stop, whatever its status, and no other |
| FusionQt.SingletonOf | plugins/fusion/qt.py:1206 | `list(fusions)[0] if len(fusions) == 1 else None` is the only element of a one-element selection, and None otherwise |

## Left out

- Rendering, layout and localisation are not modelled. This covers UIKit cells and colours, the floating-point button geometry, Qt widgets and painting, message boxes and translated strings. Messages are identified by their meaning (`FormError`, `NextAction`).
- Case mapping is ASCII only. `Words.Lower` changes only `A`-`Z`. Python's full Unicode lower-casing is not modelled. Whitespace is Python's `isspace` set.
- Wallet-library calls are inputs:
  - `get_addr_balance`, `get_address_history`, `is_used`, `is_frozen`, labels, `format_amount` and fiat formatting give the per-address `AddressInfo`;
  - `Refresh`'s `fxOn` parameter stands for the fiat switch `daemon and daemon.fx and daemon.fx.get_fiat_address_config()` (`addresses.py:742`);
  - `check_wallet_exists` is a function parameter;
  - `Address.from_string` is not modelled; the lookup compares address strings.
- `utils.pathsafeify` and `Mnemonic.get_suggestions` are function parameters. Seed generation (`make_seed`, `WaitingDialog`) is left out.
- NewWallet.ChooseSuggestions: the random index draw is modelled as a nondeterministic choice among the words not yet chosen, so it terminates. It requires distinct suggestions. With repeated suggestions, the source loop may never reach its size bound.
- The order of the suggestion buttons is left out; they are a set, as `sugSet` is.
- FusionQt.CancelStops: the order of the stops follows Python set iteration, so the model gives them as a set.
- The previous `sugButs` views being removed from their superview is left out.
- The rotation re-layout timer is left out.
- `presentationIndexForPageViewController_`, which always returns 0, is left out.
- The low-memory observer is left out.
- `dealloc` and storyboard instantiation are left out.
- `FusionPlugin` (`plugin.py`), `FusionServer` and the fusion-round protocol are not part of this model. Their operations are abstract transitions:
  - `enable_autofusing` records a password the wallet accepts and refuses any other;
  - `disable_autofusing` switches autofuse off and returns the running auto-fusions;
  - `remove_wallet` hands back all the wallet's fusions and switches autofuse off;
  - `stop` and `join` are recorded in a log.
  - `Fusion.stop` is taken to default to `not_if_running=False`: the stops for closing a wallet, for the user's request when autofuse is switched off, and for the menu's Cancel pass no flag, while `qt.py` passes `not_if_running=True` explicitly only at lines 1031 and 1046.
  - Any stops those base-class methods send themselves are not modelled.
- `DEFAULT_QUEUED_AUTOFUSE` and `DEFAULT_SELF_FUSE`, defined in `plugin.py`, are constructor parameters of `FusionQt.Wallet`.
- `check_password` is modelled as equality with the wallet's current password.
- The fraction selector (`edited_fraction`) and the float conversions of the settings dialog are not modelled: they are floating-point numerics.
- The dialog's `update()` refresh is not modelled.
- The Tor port scan, QTimers, `do_in_main_thread` and the `WaitingDialog` thread are not modelled: they are concurrency and timing. Only the order of the calls is kept: every stop, then every join.
- FusionQt.Wallet.CachePw: the GUI password cache (`cache_password` / `get_cached_password`, defined outside `qt.py`) is modelled as keeping the password until it is replaced; its expiry after a time is not modelled.
- NewWallet.PrepareSeedSegue: the segue's destination is taken to be the retype screen (`NewWalletSeed2`), so the seed and its word list are always handed over.
- FusionQt.Plugin.ToggleOn: its contract is for the case where autofuse is off, the only one in which `toggle_autofuse` calls it.
- `Fusion.startTime` is an integer, while the source stores the float returned by `time.time()`. Only the order of start times matters to the model.
- The iteration order of the base class's `_fusions` and `_fusions_auto` collections is not fixed by `qt.py`. The model lists each wallet's fusions in one fixed order, so `StopEach` and `JoinEach` record the calls in that order; the source may send them in another.
- Re-selecting rows after `FusionsWindow.refresh` is not modelled: it is widget state.
- Opening a fusion's transaction from the menu or a double click is not modelled.
- The address detail screen (`PushDetail`) is not modelled.
- The exception handlers that only print are not modelled. Where an exception ends the operation, the model gives the operation no effect.
