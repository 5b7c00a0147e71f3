# Origen's lazy constant loader and DesignSync command logic, in Dafny

This project models two parts of the Origen Ruby gem and proves properties
of the models.

**The lazy constant loader** (`Origen::Dependencies::ModuleConstMissing`).
When a Ruby constant such as `Acme::Widget` is missing, `const_missing` does
the following:
- qualifies the name with the receiver module;
- stops at once when the name is the one being checked (`@_checking_name`);
- finds the application or plugin that owns the first segment;
- derives the candidate path by underscoring each segment and appending `.rb`;
- tries `app/models`, `app/controllers` and `app/lib`, first with all
  segments and then without the namespace segment;
- requires the first file that exists and checks that it defined the
  constant (`_require_file`);
- after a model, probes `<name>Controller` with `@pre_loading_controller` set.

`append_features` and `exclude_from` install the loader into `Module` and
remove it again.

The model has three layers:
- `Resolution` states the protocol as functions on a `State` value. The
  state holds the defined constants, the required files and the two
  instance variables.
- `ConstLoader.HookedModule` is a class whose methods set and reset those
  instance variables as the Ruby methods do. Each method is proved to
  compute exactly what the function of the same name computes.
- `ResolutionProperties` proves what the loader promises about those
  functions.

`LoadSwitch.Base` models the install/remove switch as a class.

**DesignSync revision control** (`Origen::RevisionControl::DesignSync`).
The model covers:
- the `dssc` command lines that `checkout`, `checkin` and `changes` build
  one `+=` at a time;
- the screen `dssc` applies to the tool's output;
- how `changes` sorts `compare` output into added, removed and changed
  files;
- how `local_modifications` and `unmanaged` turn listing lines into paths.

`Text` holds the Ruby string operations these need: `String#strip`,
`split` on a non-empty separator (keeping trailing empty fields, see
"Left out"), `join`, `sub` and the `^` anchor.

## Model

| member | source | states |
|---|---|---|
| ConstLoader.HookedModule.constructor | lib/origen/dependencies.rb:37 | A receiver starts with `@_checking_name` unset (nil) and `@pre_loading_controller` unset (nil, read as false at lines 70 and 84), over the given constants and loaded files |
| ConstLoader.HookedModule.ConstMissing | lib/origen/dependencies.rb:34-79 | The outcome and the new receiver state are exactly `Resolution.ConstMissing`'s, and `@pre_loading_controller` is false afterwards |
| ConstLoader.HookedModule.ConstMissingBody | lib/origen/dependencies.rb:35-76 | The body's branches (no workspace, the Symbol name on Object, guard, unowned namespace, two passes, probe miss) yield exactly `Resolution.ConstMissingBody`'s outcome and state |
| ConstLoader.HookedModule.Load | lib/origen/dependencies.rb:42-48 | Requiring a hit and, after a model, the flagged controller probe yield exactly `Resolution.Load`'s outcome and state |
| ConstLoader.HookedModule.RequireFile | lib/origen/dependencies.rb:82-91 | require, the early return while probing, and the guarded check yield exactly `Resolution.RequireFile`'s outcome and state |
| ConstLoader.HookedModule.Eval | lib/origen/dependencies.rb:86 | `eval(name)` returns a defined constant or falls through to const_missing, as `Resolution.Eval` |
| ConstLoader.HookedModule.Require | lib/origen/dependencies.rb:83 | `require` adds the file and its constants the first time only, as `Resolution.Require` |
| Resolution.FirstPlugin | lib/origen/dependencies.rb:99-101 | None iff no plugin owns the namespace; otherwise an owning plugin with no owning plugin before it |
| Resolution.AppFromNamespace | lib/origen/dependencies.rb:94-104 | The application when it owns the namespace; otherwise the first owning plugin in order; nil iff nobody owns it |
| Resolution.Uninitialized | lib/origen/dependencies.rb:107-109 | A NameError carrying the name, whose message is `uninitialized constant ` followed by the name |
| Resolution.ExpectedIn | lib/origen/dependencies.rb:89 | A NameError carrying the name, whose message is the uninitialized-constant message followed by ` (expected it to be defined in: `, and which ends with the file and `)` |
| Resolution.AppFileShape | lib/origen/dependencies.rb:42-51 | A candidate `File.join(app.root, 'app', dir, path)` lies under `<root>/app/` and ends with `/<path>`; models, controllers and lib give three different files |
| Resolution.Qualify | lib/origen/dependencies.rb:36 | The qualified name ends with the missing name, and on a named module starts with `<module>::` |
| Resolution.CandidatePath | lib/origen/dependencies.rb:41 | The candidate path (also the one of line 57) is a Ruby file name: it ends in `.rb` |
| Resolution.Probe | lib/origen/dependencies.rb:42-53 | A hit is an existing file `<root>/app/<dir>/<path>` of its directory, with no existing file in a directory tried before it (models, then controllers, then lib); no hit iff none of the three exists |
| Resolution.Require | lib/origen/dependencies.rb:83 | The file is required afterwards; nothing required or defined is lost; a new file's constants become defined; requiring a required file changes nothing; the instance variables are untouched |
| Resolution.Eval | lib/origen/dependencies.rb:86 | Defined constants and required files only grow, and a returned constant is the qualified name and is defined afterwards |
| Resolution.ConstMissing | lib/origen/dependencies.rb:34-79 | Defined constants and required files only grow; a returned constant is the qualified name and is defined afterwards; `@pre_loading_controller` is false on every exit |
| Resolution.ConstMissingBody | lib/origen/dependencies.rb:35-76 | Defined constants and required files only grow, and a returned constant is the qualified name and is defined afterwards |
| Resolution.Load | lib/origen/dependencies.rb:42-48 | The hit's file is required afterwards; defined constants and required files only grow; a returned constant is the qualified name and is defined |
| Resolution.RequireFile | lib/origen/dependencies.rb:82-91 | The file is required afterwards; defined constants and required files only grow; a returned constant is the qualified name and is defined; nil is returned only while probing for a controller |
| ResolutionProperties.QualifiedNameSegments | lib/origen/dependencies.rb:36-38 | On a named module, the segments split from the qualified name are the receiver's segments followed by the name |
| ResolutionProperties.CandidatePathSplits | lib/origen/dependencies.rb:41 | The candidate path ends in `.rb`; when no underscored segment contains `/`, it splits at `/` into the underscored segments; with no segments (line 57 after a single segment) it is just `.rb` |
| ResolutionProperties.InactiveWorkspaceRaises | lib/origen/dependencies.rb:74-75 | Outside a workspace the result is NameError "uninitialized constant <name>" with the unqualified name, and only the flag changes |
| ResolutionProperties.GuardReturnsNil | lib/origen/dependencies.rb:37 | On a named module, a reference to the name being checked returns nil and changes nothing but the flag |
| ResolutionProperties.UnownedNamespaceRaises | lib/origen/dependencies.rb:71-72 | An unowned namespace raises "uninitialized constant <qualified name>" before any file is probed |
| ResolutionProperties.ProbesFirstExistingCandidate | lib/origen/dependencies.rb:41-70 | The first existing file among models, controllers, lib (full path, then without the namespace) is loaded; with none, nil while probing and a NameError otherwise |
| ResolutionProperties.RequireFileOutcome | lib/origen/dependencies.rb:82-91 | After require: nil while probing; otherwise the constant if the file defined it, else NameError "… (expected it to be defined in: <file>)", with `@_checking_name` cleared |
| ResolutionProperties.RequireIsIdempotent | lib/origen/dependencies.rb:83 | Requiring a file twice is requiring it once |
| ResolutionProperties.FirstNonModelHitIsReturned | lib/origen/dependencies.rb:49-52 | A controller or lib hit returns that file's constant (or the NameError naming it), requiring exactly that file |
| ResolutionProperties.ControllerProbeIsSilent | lib/origen/dependencies.rb:46-70 | During the controller probe const_missing returns nil, keeps everything defined and loaded, and loads the probe's first existing candidate |
| ResolutionProperties.SilentLoad | lib/origen/dependencies.rb:82-84 | Loading a hit while probing returns nil without checking, and a nested probe after a model is silent too |
| ResolutionProperties.ModelLoadOutcome | lib/origen/dependencies.rb:42-48 | A model hit returns the model's constant or the NameError naming the file; the probe neither raises nor unloads, and leaves `@_checking_name` unset |
| ResolutionProperties.ModelProbe | lib/origen/dependencies.rb:44-47 | After a model that defined its constant, the controller probe does not raise and leaves `@_checking_name` unset; when the controller is undefined, its first existing candidate is loaded |
| ResolutionProperties.ModelLoadsController | lib/origen/dependencies.rb:42-48 | After a model that defined its constant, an undefined controller's first existing candidate is loaded |
| ResolutionProperties.ModelHitReturnsModel | lib/origen/dependencies.rb:42-48 | End to end: when a model file is the first hit, const_missing returns what the model check returns, with both instance variables cleared |
| ResolutionProperties.ObjectReceiverRaises | lib/origen/dependencies.rb:34-38 | On Object inside a workspace, whatever the state and files, const_missing raises a NoMethodError for `split` on the Symbol name, probes nothing and changes only the flag |
| LoadSwitch.Base.constructor | lib/origen/dependencies.rb:11 | Module starts with its own const_missing, nothing saved and the loader not included |
| LoadSwitch.Base.AppendFeatures | lib/origen/dependencies.rb:8-16 | A no-op while a method is saved; otherwise it saves the active method, removes Module's own and includes the loader; either way the loader is active |
| LoadSwitch.Base.ExcludeFrom | lib/origen/dependencies.rb:18-23 | Restores the saved method and clears the slot, which makes the saved method active; with nothing saved it raises and changes nothing |
| LoadSwitch.EnableTwiceDisableOnce | lib/origen/dependencies.rb:115-123 | Enabling twice and disabling once restores the original const_missing with nothing saved |
| DesignSyncCommands.CheckoutWords | lib/origen/revision_control/design_sync.rb:54-61 | Starts `pop -rec -get -uni`; `-force` iff forced; `-version <prefix_tag(v)>` iff a version is given; `-merge` last iff neither |
| DesignSyncCommands.CheckinWords | lib/origen/revision_control/design_sync.rb:71-80 | Five to seven words: `ci -rec -keep` first, `-com` and the comment word last |
| DesignSyncCommands.CommentWord | lib/origen/revision_control/design_sync.rb:75-80 | `None` iff the comment is absent or blank; otherwise the stripped, non-empty comment in double quotes |
| DesignSyncCommands.CheckinFlags | lib/origen/revision_control/design_sync.rb:71-80 | Starts `ci -rec -keep`; `-skip` iff forced; `-new` iff unmanaged or forced; ends with `-com` and the comment word |
| DesignSyncCommands.Checkout | lib/origen/revision_control/design_sync.rb:52-67 | The command built step by step is the checkout words, a space and the space-joined paths, which it also returns |
| DesignSyncCommands.Checkin | lib/origen/revision_control/design_sync.rb:69-86 | The command built step by step is the checkin words, a space and the space-joined paths, which it also returns |
| DesignSyncCommands.CommandSplits | lib/origen/revision_control/design_sync.rb:62-63 | When no word or path holds a space, splitting the command line at spaces gives the words followed by the paths |
| DesignSyncCommands.CheckoutCommandSplits | lib/origen/revision_control/design_sync.rb:54-63 | The checkout command line splits back into its words followed by the paths |
| DesignSyncCommands.CheckinCommandSplits | lib/origen/revision_control/design_sync.rb:71-82 | The checkin command line splits back into its words followed by the paths when the comment holds no space |
| DsscOutput.VersionBanners | lib/origen/revision_control/design_sync.rb:258 | The banners `V5.1-1205` and `V6R2010` match the version marker |
| DsscOutput.TwoDigitMajorVersion | lib/origen/revision_control/design_sync.rb:258 | `V12.3-4` matches only through the first alternative |
| DsscOutput.NotABanner | lib/origen/revision_control/design_sync.rb:258 | `Version 5` does not match the version marker |
| DsscOutput.HasVersionMarker | lib/origen/revision_control/design_sync.rb:258 | A marker is a `V` followed by a digit and at least two more characters |
| DsscOutput.Kept | lib/origen/revision_control/design_sync.rb:257-259 | A kept line is non-empty after stripping |
| DsscOutput.Screened | lib/origen/revision_control/design_sync.rb:254-262 | At most one output line per line read |
| DsscOutput.Screen | lib/origen/revision_control/design_sync.rb:254-262 | The loop's output is the kept lines, stripped, in order |
| DsscOutput.ScreenedAppend | lib/origen/revision_control/design_sync.rb:254-262 | Screening two stretches of output one after the other is screening them together, so order is kept |
| DsscOutput.ScreenedLinesAreStripped | lib/origen/revision_control/design_sync.rb:259-260 | Every line passed on is non-empty and already stripped |
| DsscOutput.ScreenedSingle | lib/origen/revision_control/design_sync.rb:257-260 | A single line is passed on, stripped, exactly when it is kept |
| DsscOutput.ScreenedEmptyIffNoneKept | lib/origen/revision_control/design_sync.rb:254-262 | Nothing is passed on iff no line is kept |
| DsscOutput.ScreenedKeepsKept | lib/origen/revision_control/design_sync.rb:257-260 | Every kept line appears in the output, stripped |
| DesignSyncListings.FindPair | lib/origen/revision_control/design_sync.rb:117 | The leftmost position of the two-token pair, None iff there is none |
| DesignSyncListings.ClassifyTokens | lib/origen/revision_control/design_sync.rb:117-125 | A line is an entry iff one of the three pairs occurs with the tokens it needs before it; the path is a token after the first three |
| DesignSyncListings.Classify | lib/origen/revision_control/design_sync.rb:115-125 | `Unmanaged` lines are ignored; otherwise added iff `First only` matches, removed iff not that but `Second only`, changed iff neither but `Different versions/states`; the path is the token after the leftmost match of the deciding pair, non-empty and whitespace-free |
| DesignSyncListings.ClassifyWords | lib/origen/revision_control/design_sync.rb:115-117 | A line of space-separated words without `U` is classified by its words |
| DesignSyncListings.Collected | lib/origen/revision_control/design_sync.rb:103-127 | At most one path per line, each non-empty and whitespace-free |
| DesignSyncListings.CompareWords | lib/origen/revision_control/design_sync.rb:94-97 | `compare -rec -path -report silent` first; `-selector` present iff a version is given, followed by its tag |
| DesignSyncListings.Under | lib/origen/revision_control/design_sync.rb:129-131 | Each path becomes `<dir>/<path>`, same length and order |
| DesignSyncListings.PrefixAll | lib/origen/revision_control/design_sync.rb:129-131 | The in-place `map!` yields the paths under the directory |
| DesignSyncListings.CompareCommand | lib/origen/revision_control/design_sync.rb:94-98 | The command is `compare -rec -path -report silent`, `-selector <tag>` when a version is given, and the directory, space-joined |
| DesignSyncListings.Collect | lib/origen/revision_control/design_sync.rb:103-127 | Each list collects the paths of the lines classified into it, in output order |
| DesignSyncListings.Changes | lib/origen/revision_control/design_sync.rb:88-133 | The command; the three lists, prefixed with the directory; `present` iff a list is non-empty iff some line is an entry |
| DesignSyncListings.CollectedAppend | lib/origen/revision_control/design_sync.rb:103-127 | Collecting two stretches of output gives the two results one after the other |
| DesignSyncListings.CollectedSingle | lib/origen/revision_control/design_sync.rb:115-125 | A line lands in the list its class names and in no other |
| DesignSyncListings.CollectedEmptyIffNoEntry | lib/origen/revision_control/design_sync.rb:128 | All three lists are empty iff no line is an entry |
| DesignSyncListings.CollectedCount | lib/origen/revision_control/design_sync.rb:117-125 | Every line contributes at most one path over the three lists |
| DesignSyncListings.AddedExample | lib/origen/revision_control/design_sync.rb:107-108 | The comment's `First only` line adds `source_setup` |
| DesignSyncListings.RemovedExample | lib/origen/revision_control/design_sync.rb:109-110 | The comment's `Second only` line removes `lib/history` |
| DesignSyncListings.ChangedVersionsExample | lib/origen/revision_control/design_sync.rb:111-112 | The comment's `Different versions` line changes `lib/origen/application.rb` |
| DesignSyncListings.ChangedStatesExample | lib/origen/revision_control/design_sync.rb:113-114 | The comment's `(Locally Modified)` line changes `lib/origen/commands/rc.rb` |
| DesignSyncListings.FullPathPrefix | lib/origen/revision_control/design_sync.rb:219-227 | Starts with `file://`, and is `file:///` iff running on Windows |
| DesignSyncListings.Listed | lib/origen/revision_control/design_sync.rb:144-147 | A listed line is non-empty after stripping |
| DesignSyncListings.Listing | lib/origen/revision_control/design_sync.rb:163-166 | At most one survivor per line, each of them listed |
| DesignSyncListings.ListedPath | lib/origen/revision_control/design_sync.rb:149-150 | The entry is no longer than the stripped line |
| DesignSyncListings.ListedPathDropsPrefix | lib/origen/revision_control/design_sync.rb:149-150 | The entry is the stripped line without a leading prefix, or the stripped line when the prefix begins none of its lines |
| DesignSyncListings.UnmanagedEntry | lib/origen/revision_control/design_sync.rb:168-170 | The entry has the listed path's length, and is the listed path when that holds no `\|` |
| DesignSyncListings.LocalEntryAsWritten | lib/origen/revision_control/design_sync.rb:148-153 | As written: `<dir>/` followed by the listed path, whose `\|` is kept |
| DesignSyncListings.LocalEntry | lib/origen/revision_control/design_sync.rb:148-153 | Corrected: `<dir>/` followed by as many characters as the listed path has |
| DesignSyncListings.UnmanagedEntrySubstitutes | lib/origen/revision_control/design_sync.rb:168-170 | The first `\|` of the path becomes `:` and nothing else changes |
| DesignSyncListings.LocalEntryAsWrittenIffNoBar | lib/origen/revision_control/design_sync.rb:148-153 | An as-written entry equals the corrected one iff the listed path holds no `\|` |
| DesignSyncListings.LocalModificationsAsWritten | lib/origen/revision_control/design_sync.rb:144-153 | As written: one entry per listed line, each under `<dir>/` |
| DesignSyncListings.LocalModificationsAsWrittenDiffers | lib/origen/revision_control/design_sync.rb:148-153 | The as-written list differs from the corrected entries of `LocalModifications` exactly at the lines whose listed path holds a `\|` |
| DesignSyncListings.LocalEntryIsUnmanagedUnderDir | lib/origen/revision_control/design_sync.rb:148-153 | A corrected local entry is `<dir>/` followed by the unmanaged entry of the same line |
| DesignSyncListings.DriveLetterEntries | lib/origen/revision_control/design_sync.rb:151 | For ` file:///C\|/work/a.rb` on Windows: unmanaged gives `C:/work/a.rb`, local_modifications as written `ws/C\|/work/a.rb`, corrected `ws/C:/work/a.rb` |
| DesignSyncListings.LocalModifications | lib/origen/revision_control/design_sync.rb:135-154 | The `ls -rec -managed …` command, and one corrected entry under the directory per listed line, in order |
| DesignSyncListings.Unmanaged | lib/origen/revision_control/design_sync.rb:156-172 | The `ls -rec -unmanaged -fullpath …` command, and one unmanaged entry per listed line, in order |
| DesignSyncListings.ListingAppend | lib/origen/revision_control/design_sync.rb:144-147 | Filtering two stretches of output gives the two results one after the other |
| DesignSyncListings.ListingOnlyListed | lib/origen/revision_control/design_sync.rb:144-147 | No blank, `Name`, `Directory` or `---` line survives, and every survivor comes from the output |
| DesignSyncListings.ListingKeepsListed | lib/origen/revision_control/design_sync.rb:163-166 | Every line the filter keeps is in the listing |
| Text.RemoveAtLineStart | lib/origen/revision_control/design_sync.rb:150 | `sub(/^p/, '')`: drops a leading `p`, leaves a string where `p` begins no line unchanged, and never lengthens it |
| Text.ReplaceFirst | lib/origen/revision_control/design_sync.rb:170 | `sub('\|', ':')`: same length; unchanged without `\|`; otherwise the first `\|` becomes `:` and every other character stays |
| Text.Strip | lib/origen/revision_control/design_sync.rb:149 | `String#strip`: a slice of the input, with only NUL and ASCII whitespace removed from either end and none left at the ends |
| Text.StripEmptyIffBlank | lib/origen/revision_control/design_sync.rb:145 | `strip.empty?` holds iff the line is whitespace only |
| Text.StripIdempotent | lib/origen/revision_control/design_sync.rb:168 | Stripping twice is stripping once |
| Text.SplitJoin | lib/origen/dependencies.rb:38 | Splitting the separator-joined segments gives them back when no segment contains the separator's first character |

Behaviour of the code that the model follows and a reader may not expect:
- `exclude_from` with nothing saved hands nil to `define_method` (line 20),
  which raises a TypeError (`LoadSwitch.Base.ExcludeFrom`).
- Ruby passes `const_missing` the missing name as a Symbol, and line 36
  turns it into a String only on a named module. On Object, inside a
  workspace, the guard of line 37 compares the Symbol with a String or nil
  and fails, and `split` at line 38 raises a NoMethodError: a missing
  top-level constant is never loaded
  (`ResolutionProperties.ObjectReceiverRaises`).
- On a named module the controller probe of lines 44-47 returns nil and
  does not raise, as the comment at lines 44-45 says
  (`ResolutionProperties.ControllerProbeIsSilent`). This holds under the
  model's `require`, which runs no code (see "Left out").
- Disabling does not remove the loader module from `Module`'s ancestors.
  It puts `Module`'s own `const_missing` first again
  (`LoadSwitch.EnableTwiceDisableOnce`).
- The no-workspace error at line 75 names the constant unqualified, because
  the qualification at line 36 happens only inside the workspace branch.

## Findings

| source | as written | input that shows it | evidently intended | confidence | as-written member | corrected member |
|---|---|---|---|---|---|---|
| lib/origen/revision_control/design_sync.rb:151 | `file.sub('\|', ':')` builds a new string that is thrown away, so `local_modifications` keeps the `\|` of a Windows drive letter, while `unmanaged` (line 170) uses the substituted string | on Windows, listing line ` file:///C\|/work/a.rb` under `ws` gives `ws/C\|/work/a.rb` | `ws/C:/work/a.rb`, as `unmanaged` gives `C:/work/a.rb` | high, not executed | DesignSyncListings.LocalEntryAsWritten (over a whole listing DesignSyncListings.LocalModificationsAsWritten; exhibited by DesignSyncListings.DriveLetterEntries) | DesignSyncListings.LocalEntry (DesignSyncListings.LocalEntryIsUnmanagedUnderDir, used by DesignSyncListings.LocalModifications) |

## Left out

- Ruby's `class_eval`, `remove_method`, `define_method` and method lookup are modelled by the `LoadSwitch.Base` fields `own`, `saved` and `includesLoader`. Only `Module` is modelled as a base.
- `String#underscore` (ActiveSupport) and `prefix_tag` are parameters of the model, with no definition. `clean_path` is not part of this model: paths come in already cleaned, and `dir` stands for `paths.first`.
- `File.join` is modelled as joining with `/` under a root without a trailing separator. `File.exist?` is membership in a given set of paths.
- The constant a required file defines comes from a given map. Load errors raised while a file runs are not modelled.
- `eval "#{name}Controller"` is modelled as a lookup of the qualified name on the same receiver. Ruby's lexical scope for `eval` is not modelled.
- Resolution.ConstMissing: the chain of nested controller probes is bounded by `fuel`. At fuel 0 the probe is skipped. The Ruby code has no bound, but it stops once no `…Controller` model file exists.
- The backtrace filtering of `_raise_uninitialized_constant_error` (line 110) is not modelled. The error is only its message and name.
- Running `dssc`, its exit-status check, `chmod`, logging, `Dir.chdir` and `Open3` are left out. Output lines are given as a sequence, and the methods return the command string instead of running it.
- The `@full_path_prefix` memoisation is not modelled. `FullPathPrefix` takes the Windows flag as a parameter.
- DesignSyncListings.Classify approximates the regular expressions of lines 117, 120 and 123 over whitespace-separated tokens:
  - `First only`, `Second only` and `Different versions|states` are two consecutive tokens;
  - any whitespace run between the two words is accepted, where the expressions ask for exactly one space;
  - a pattern that starts or ends inside a token is not modelled.
- DesignSyncListings.ClassifyWords and the four examples join the comment's columns with single spaces, not the comment's column padding.
- DsscOutput.Screen: a line from `gets` is taken as given. Its trailing line feed is treated like any other character, which `strip` and the version marker already handle.
- `remote_check_in`, `remove_dot_syncs!`, `build`, `tag`, `root`, `current_branch`, `diff_cmd`, `initialize_local_dir` and `initialized?` are not modelled. They are file-system or process operations, or depend on `VersionString`, which is not part of this model.
- Text.Strip strips NUL at both ends. Ruby versions before 2.6 strip it at the end only.
- Text.Split keeps trailing empty fields, which Ruby's `String#split` drops. The qualified names split at line 38 never end in `::`, so no such field arises there. In DesignSyncCommands.CommandSplits, Split only stands for cutting a command line at its spaces, not for a Ruby call.
- Resolution.RequireFile (and ConstLoader.HookedModule.RequireFile): `return const if const` (line 88) also treats a constant bound to nil or false as missing and raises the "expected it to be defined in" error. The model's constants carry no values, so a defined constant is always returned.
- Resolution.ConstMissing: the NoMethodError on Object is modelled by its method name and receiver; Ruby's message text is not.
- Resolution.Require runs no code: a required file only adds the constants the map gives it. Constant references made while a file runs are not modelled. In Ruby such a reference to a missing constant on the same module re-enters `const_missing`, whose `ensure` (line 78) clears `@pre_loading_controller` in the middle of a controller probe. For example, when the probe of line 47 loads `app/controllers/widget_controller.rb` and that file references `Acme::Helper` from `app/lib`, the nested lookup evaluates to nil at line 84 and clears the flag. The probe's `_require_file` then goes on to lines 85-90, and raises "expected it to be defined in" when the file did not define the controller. ResolutionProperties.ControllerProbeIsSilent, SilentLoad, ModelLoadOutcome, ModelProbe, ModelLoadsController, ModelHitReturnsModel and RequireFileOutcome hold under this `require` only.
