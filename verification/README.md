# zectl, modelled and verified

zectl manages ZFS boot environments: datasets right below a common root, one of which is running and one of
which the pool's `bootfs` names for the next boot. This project models the three parts of it that carry logic of
their own and proves what they are for. `dafny verify dfyconfig.toml` checks all of it.

**The text engine** (`CString`, `ReplaceString`, `GroupExpansion`, `Names`, `Props`). C strings in fixed buffers:
global replacement through an exactly sized work buffer, expansion of `\1`..`\9` in place, the helpers that cut
paths and property texts. Each is array code with the loops of the source, proved against a short pure function,
and that function is proved to mean what the routine promises.

**The configuration rewriting** (`Bre`, `BootPatterns`, `Regcomp`, `BootMatches`, `LineRewrite`, `LineCallbacks`,
`TemplateRoundTrip`, `LastWriter`, `FileRewrite`). The five patterns of the systemd-boot plugin are written as the
source writes them, taken apart into groups (`Regcomp`), read by a parser for the fragment of basic regular expressions they use (section 9.3 of the Base
Definitions of POSIX.1-2017, with the `\|` of GNU), and given the meaning of section 9.1: leftmost, then longest, then
earlier groups longest. For each of them the reported match is proved to be an explicit cut of the line. On top of that
stand the line callbacks, the file loop over `fgets` chunks, and the two compositions the plugin relies on: a template
stored by `zectl snapshot` and filled in by `zectl create -e`, and fstab and loader.conf lines rewritten again and again.

**The lifecycle** (`Pools`, `DestroyTree`, `MountTree`, `CloneTree`, `Handles`, `Commands`, `Lifecycle`). A pool is
mutable state keyed by names, with snapshots, clones, origins and mounts. The primitives of libzfs are methods of the
class `Zfs` that may fail at any time, and always fail for a name that ZFS does not take (`LegalName`); with the flag
`reliable` they fail only for a reason found in the pool, and with the flag `hooks` a plugin's hooks succeed, which is how
the contracts say when a command must succeed. The commands follow the source branch by branch. Safety is proved
over every run, both for the methods (`RunAll`) and for the transition relation they are proved to follow
(`RunKeepsSafe`). Walks over children are recursive where libzfs iterates and calls back.

**The file tree** (`FileTree`, `FileSystems`). Recursive copy, recursive removal and mkdir -p over a tree of
directories and files, with `readdir` delivering names in any order and system calls that may fail at any time; the
last flush of a file may fail without anybody noticing.

## What the code does, where that is not what it means to do

The model follows the code. These points are proved or shown by a concrete input:

- A title line whose text before the name ends in a backslash, with a new name that begins with a digit from 1 to 9, is
  expanded twice: `title \old` in the entry of `old`, filled in for `2x`, becomes `title oldx` (`SeamBreaksLine`).
  `TitleLineText` gives the result for every title line, and `CfgLineExactly` and `SeamDamages` say when it is the
  rewritten line. The round trip of the callbacks breaks exactly if such a seam takes in the name
  (`CallbackRoundTripExactly`); lines without a backslash have no seam (`NoSeamWithoutBackslash`).
- Titles do not escape dots (`lib/libze_plugin/libze_plugin_systemdboot.c:365`), so the last dot of a name can take the
  newline of its line (`DotTakesNewline`). `CfgKeepsLine` says for which lines it does; they are the condition of
  `EntryFileRoundTrip`.
- The bracket in the loader pattern (line 675 of the same file) is backslash, `t` and space,
  not a tab: a tab before the entry is lost (`LoaderSeparator`).
- A name of 237 characters and more overflows the loader template; the line is then whatever the buffer held, reported as
  success (`LongNameKeepsStaleLine`).
- `libze_util_copy_file` does not ask whether `fflush` and `fclose` worked, so a file can be cut short, even empty, and
  reported as copied (`LostFlush`); a copy of a directory then goes on to the next file. `CopyDir` names these files.
- `replace_matched` reports success after a failing callback and leaves the file cut short (`ReplaceMatched`).
- A group that is empty and expanded at index 0 moves the cursor before the buffer; `SubexprReplace` excludes that case,
  and no match of the five patterns has it (`LineRewrite.NoUnderflow`).
- Text before a match of an entry line is dropped, since the patterns are not anchored.
- A recursive create of an environment with children always fails (`CloneAll`), and so does a create from an existing
  source with a boot pool (`PrepareBootPool`).
- Destroying a snapshot without a boot pool destroys it and then reports a failure (`DestroyBeSnap`).
- `libze_activate` reports success when its middle step failed, having activated nothing. Without a plugin, and when
  calls only fail for a reason in the pool, that happens exactly for an environment that is not running, is mounted and
  has something mounted below it (`Activate`); one that is mounted elsewhere with nothing below is unmounted, and its
  mountpoint set to `/`. The children of an environment that is no clone are left alone (`ActivateTree`).
- A forced destroy unmounts a dataset before its children and ignores the result, so it fails, and the dataset stays,
  when it is mounted with something mounted below it, as a mounted environment with children is (`Destroy`).
- `libze_mount` returns the error that was set on the way. An iteration over filesystems that fails by itself sets none,
  so the mount stops halfway and is reported as success (`MountBe`).
- A temporary unmount also sets canmount=noauto and the mountpoint, so that an activate that fails afterwards has
  changed them (`MidActivate`).
- `libze_create` reads `cdata->recursive` (`lib/libze/libze.c:1783`), which nothing sets; `Prepare` takes an arbitrary
  value for it.
- With a plugin, a rename that failed on the boot pool is reported as the plugin's result (`RenameBe`).
- A property of zectl itself whose value has a colon cannot be set (`SetThenGet`).
- The check that the namespace of a property ends where it should is never made for names long enough to pass (`Kept`).
- `libze_util_mkdir` cuts a path of 255 characters and more short without an error (`MakeDirs`).

## Model

| member | source | states |
|---|---|---|
| `ReplaceString.Replace` | lib/libze/libze_util.c:690-778 | For every line, pattern, replacement (NULL included) and buffer: the output is the leftmost non-overlapping replacement as `strlcpy` leaves it, and the status is a failure exactly when the line or the result does not fit (or the work buffer is not obtained). Allocation size, both inner length checks and the exact fill are verified on the way: the two inner failures are dead |
| `ReplaceString.PiecesDetermineReplacement` | lib/libze/libze_util.c:690-778 | Whatever cutting of the line at leftmost occurrences one takes, the result is those pieces joined by the replacement |
| `ReplaceString.ReplacementHasPieces` | lib/libze/libze_util.c:690-778 | Such a cutting exists for every line, with one cut per replacement |
| `ReplaceString.BufSizeIsExact` | lib/libze/libze_util.c:734-737 | The wrapping `size_t` formula gives the exact result length plus one, also when the replacement is shorter, if and only if that length fits in a `size_t` |
| `ReplaceString.CountReplacements` | lib/libze/libze_util.c:727-732 | The counting loop finds as many occurrences as there are replacements |
| `ReplaceString.FillResult` | lib/libze/libze_util.c:742-769 | The pointer-stepping loop and the copy of the remainder fill the work buffer to its last byte with the replacement |
| `GroupExpansion.SubexprReplace` | lib/libze/libze_util.c:795-836 | The in-place loop of `memmove`s stays in the buffer, terminates, and leaves text and status of the scan machine for every template, match and line for which the cursor does not underflow |
| `GroupExpansion.InPlaceIsSinglePass` | lib/libze/libze_util.c:802-834 | Without a seam the scan ends with the single-pass left-to-right expansion if and only if every group referred to took part and every intermediate length fits; it reports MAXPATHLEN when one does not, and never underflows |
| `GroupExpansion.SeamBreaksExpansion` | lib/libze/libze_util.c:815-832 | In-place and single-pass expansion differ on the groups of a concrete title line: text before the name that ends in a backslash, and a new name that begins with a digit |
| `GroupExpansion.Splice` | lib/libze/libze_util.c:815-829 | The two overlapping `memmove`s exchange a reference for the group's text and keep the string terminated |
| `Bre.ParseEscaped` | lib/libze_plugin/libze_plugin_systemdboot.c:390-426 | Escape soundness: the output of the real replacement routine for `.` and `\.` is read back as exactly the literal characters of the name |
| `Bre.LitsMatch` | lib/libze_plugin/libze_plugin_systemdboot.c:390-479 | Such a literal fragment matches one string only, the name |
| `Bre.ParseUnescaped` | lib/libze_plugin/libze_plugin_systemdboot.c:359-376 | The title pattern does not escape: each dot of the name is read as any character |
| `Bre.ReportedIsUnique` | lib/libze_plugin/libze_plugin_systemdboot.c:1016-1051 | The POSIX rule (leftmost, longest, earlier groups longest) leaves no choice of match |
| `Regcomp.CompileTitle` | lib/libze_plugin/libze_plugin_systemdboot.c:359-376 | The title expression as one string, taken apart into groups, alternatives and anchors, is the pattern of its three parts, whatever the name |
| `Regcomp.CompileLinux` | lib/libze_plugin/libze_plugin_systemdboot.c:390-426 | The linux expression, with its two alternatives |
| `Regcomp.CompileOptions` | lib/libze_plugin/libze_plugin_systemdboot.c:441-479 | The options expression |
| `Regcomp.CompileFstab` | lib/libze_plugin/libze_plugin_systemdboot.c:304-347 | The fstab expression, with its anchors |
| `Regcomp.CompileLoader` | lib/libze_plugin/libze_plugin_systemdboot.c:673-677 | The loader expression, taken apart as a whole |
| `BootMatches.RegexecTitle` | lib/libze_plugin/libze_plugin_systemdboot.c:359-376 | For every line, `regexec` on the title pattern reports the first head with the last place of the name behind it, with those three groups, and nothing when there is none |
| `BootMatches.RegexecLinux` | lib/libze_plugin/libze_plugin_systemdboot.c:390-426 | The same for linux and initrd lines: first head, last `org.zectl-NAME/`, five groups |
| `BootMatches.RegexecOptions` | lib/libze_plugin/libze_plugin_systemdboot.c:441-479 | The same for options lines: first head, last `zfs=ROOT/NAME` |
| `BootMatches.RegexecFstab` | lib/libze_plugin/libze_plugin_systemdboot.c:304-347 | The fstab pattern matches exactly the lines that begin with blanks and the efi prefix and hold the boot mountpoint behind it, cut at its last place |
| `BootMatches.RegexecLoader` | lib/libze_plugin/libze_plugin_systemdboot.c:673-677 | The loader pattern cuts behind `default` and the run of backslashes, `t`s and spaces that follows |
| `LineRewrite.PickIsReported` | lib/libze_plugin/libze_plugin_systemdboot.c:1016-1051 | For every line the kind picked is the first pattern, in order, for which `regexec` reports a match, with that match; none is picked exactly when none of the three reports one |
| `LineRewrite.RewriteByPatterns` | lib/libze_plugin/libze_plugin_systemdboot.c:1016-1051 | The rewritten line is given by what `regexec` reports for the three patterns alone: its groups around the new name, or the line itself |
| `LineRewrite.CfgLineIsRewrite` | lib/libze_plugin/libze_plugin_systemdboot.c:966-1065 | Away from a seam the callback exchanges the name in the picked line when the expressions, the templates and every intermediate text fit; otherwise it fails, with the status of a failed template concatenation when the name alone is too long for the template, and with MAXPATHLEN else |
| `LineRewrite.SubstituteOneThree` | lib/libze/libze_util.c:802-834 | Seam or not, the expansion in place of the template for titles is: as long as the text so far ends in a backslash and the name begins with a digit, the two are exchanged for the group; then the rest of the name and the third group follow, or the first error of these steps |
| `LineRewrite.CfgLineExactly` | lib/libze_plugin/libze_plugin_systemdboot.c:1016-1051 | The callback gives the rewritten line if and only if everything fits and there is no seam, or its group reads as the very backslash and digit it stands for |
| `LineRewrite.FstabLineIsRewrite` | lib/libze_plugin/libze_plugin_systemdboot.c:496-547 | The fstab callback, for every line: the new text, exactly when everything fits, and MAXPATHLEN otherwise |
| `LineRewrite.FstabByPattern` | lib/libze_plugin/libze_plugin_systemdboot.c:531-547 | The same for the fstab pattern |
| `LineRewrite.LoaderLineIsRewrite` | lib/libze_plugin/libze_plugin_systemdboot.c:695-746 | The loader callback, for every line and every stale buffer |
| `LineRewrite.LoaderByPattern` | lib/libze_plugin/libze_plugin_systemdboot.c:727-746 | The same for the loader pattern |
| `LineRewrite.PMatchTexts` | lib/libze/libze_util.c:795-812 | The offsets handed to the expansion are valid and cut out the texts of the groups |
| `LineCallbacks.FormCfgRegexes` | lib/libze_plugin/libze_plugin_systemdboot.c:356-479 | The buffers hold the three expressions, with the names escaped in two of them, exactly if they and their parts fit |
| `LineCallbacks.FormFstabRegex` | lib/libze_plugin/libze_plugin_systemdboot.c:304-347 | The expression is formed, with both mountpoints escaped, exactly if it and its parts fit |
| `LineCallbacks.GetCfgLine` | lib/libze_plugin/libze_plugin_systemdboot.c:966-1065 | The callback on its buffers leaves the text, or the status, of the line function |
| `LineCallbacks.GetFstabLine` | lib/libze_plugin/libze_plugin_systemdboot.c:496-547 | The same for fstab lines |
| `LineCallbacks.GetLoaderLine` | lib/libze_plugin/libze_plugin_systemdboot.c:695-746 | The same for loader.conf lines, the stale buffer included |
| `TemplateRoundTrip.SamePick` | lib/libze_plugin/libze_plugin_systemdboot.c:1016-1051 | On every line without `%`, the pass that fills in the stored template picks the kind of line, the groups and the place that the first pass picked |
| `TemplateRoundTrip.RewriteRoundTrip` | lib/libze_plugin/libze_plugin_systemdboot.c:1585-1587 | Old name to mark and mark to new name is old name to new name, for every line without `%` |
| `TemplateRoundTrip.CallbackRoundTrip` | lib/libze_plugin/libze_plugin_systemdboot.c:966-1065 | The same for the callbacks with their buffers, error for error: once the first pass is stored, the second gives what the direct rewriting gives, unless a seam takes in the name |
| `TemplateRoundTrip.CallbackRoundTripExactly` | lib/libze_plugin/libze_plugin_systemdboot.c:966-1065 | When one of them succeeds, restored and directly rewritten line agree if and only if no seam takes in the name |
| `TemplateRoundTrip.TitleLineText` | lib/libze_plugin/libze_plugin_systemdboot.c:1018-1026 | What the callback makes of a title line with or without a seam, and which error it reports |
| `TemplateRoundTrip.SeamDamages` | lib/libze_plugin/libze_plugin_systemdboot.c:1016-1051 | When the group a seam names begins with something else than a backslash or took no part, the callback gives the rewritten line if and only if everything fits and there is no seam |
| `TemplateRoundTrip.SeamBreaksLine` | lib/libze_plugin/libze_plugin_systemdboot.c:1016-1026 | A concrete title line, name and new name for which the callback returns a line that is not the rewritten one |
| `TemplateRoundTrip.NoSeamWithoutBackslash` | lib/libze_plugin/libze_plugin_systemdboot.c:1018-1026 | A line without a backslash has no seam, so the round trip holds for all of them |
| `TemplateRoundTrip.RoundTripExactly` | lib/libze_plugin/libze_plugin_systemdboot.c:1240 | For every line, with `%` or not: the round trip restores it if and only if the second pass cuts where the first left the mark, and finds nothing where the first found nothing |
| `TemplateRoundTrip.StrayMarkBreaksRoundTrip` | lib/libze_plugin/libze_plugin_systemdboot.c:1586 | A line that already holds the mark is not restored |
| `LastWriter.FstabLastWriterWins` | lib/libze_plugin/libze_plugin_systemdboot.c:496-547 | Rewriting an fstab line for one environment and then for another gives the line, or the error, of rewriting it for the other alone |
| `LastWriter.LoaderLastWriterWins` | lib/libze_plugin/libze_plugin_systemdboot.c:695-746 | The same for loader.conf lines, as long as both names fit the template |
| `LastWriter.LongNameKeepsStaleLine` | lib/libze_plugin/libze_plugin_systemdboot.c:717-722 | A name of 237 characters or more, and only such a name, makes every line the stale buffer content, with success |
| `LastWriter.LoaderSeparator` | lib/libze_plugin/libze_plugin_systemdboot.c:673-677 | What is left of the separator behind `default`: a blank before the entry if and only if the run ends in a space, so a tab is lost |
| `FileRewrite.ReplaceMatched` | lib/libze_plugin/libze_plugin_systemdboot.c:107-146 | For every NUL-free file: the rewritten 254-character chunks up to the first failing callback, and success even then |
| `FileRewrite.ChunksAreLossless` | lib/libze_plugin/libze_plugin_systemdboot.c:127-139 | The chunks `fgets` delivers are non-empty, fit the buffer, and put together are the file |
| `FileRewrite.WrittenIsAllTexts` | lib/libze_plugin/libze_plugin_systemdboot.c:127-139 | While every callback succeeds, the output is all their results in order |
| `FileRewrite.UntouchedFileIsCopied` | lib/libze_plugin/libze_plugin_systemdboot.c:107-146 | A file in which no chunk matches is copied byte for byte |
| `FileRewrite.LinesRechunk` | lib/libze_plugin/libze_plugin_systemdboot.c:127-139 | Lines are read back as they were written |
| `FileRewrite.FstabFileLastWriterWins` | lib/libze_plugin/libze_plugin_systemdboot.c:1591-1596 | Storing a whole fstab as a template and creating from it gives the file of a direct create, truncations included |
| `FileRewrite.LoaderFileLastWriterWins` | lib/libze_plugin/libze_plugin_systemdboot.c:695-746 | Rewriting a whole loader.conf for one environment and then for another gives the file of rewriting it for the other alone, for names that fit the template |
| `FileRewrite.EntryFileRoundTrip` | lib/libze_plugin/libze_plugin_systemdboot.c:1586 | The same for a whole boot entry: once the template is stored, filling it in gives, byte for byte and truncations included, the directly rewritten entry |
| `FileRewrite.CfgKeepsLine` | lib/libze_plugin/libze_plugin_systemdboot.c:966-1065 | A rewritten entry line is one line if and only if it is not a title whose last characters can be read as the name; such a title loses its newline |
| `FileRewrite.EndIsDot` | lib/libze_plugin/libze_plugin_systemdboot.c:359-376 | Only a dot at the end of the name can take the newline |
| `FileRewrite.DotTakesNewline` | lib/libze_plugin/libze_plugin_systemdboot.c:365 | With such a name the newline is lost: a concrete line |
| `FileSystems.FileSystem.CopyDir` | lib/libze/libze_util.c:670-676 | In every outcome the destination's surroundings and all kinds of entries stay. Success means the destination is its old tree overlaid with the source tree, empty directories included, but for the files it names, which hold only the beginning of their content because a flush was lost; after a failure each path below the destination is as it was or overlaid in the same sense. When flushes work, success leaves no such file and a failure at most one. When system calls only fail for a reason in the tree there is none, and it succeeds if and only if every path and its copy fit, the trees agree on what is a directory, and the destination can be held |
| `FileSystems.FileSystem.CopyNext` | lib/libze/libze_util.c:400-461 | One turn of the walk extends the overlay by one name, and the files cut short by those of that name |
| `FileSystems.FileSystem.CopyEntry` | lib/libze/libze_util.c:535-585 | One callback makes the destination directory and lays one child over it, the files it names cut short |
| `FileSystems.FileSystem.CopyFile` | lib/libze/libze_util.c:318-381 | The copy of a file ends in one of four ways, each given by the tree it leaves and the result; an unflushed end is a success, and is excluded when flushes work; when system calls only fail for a reason in the tree, it is complete exactly if the destination can be held and is no directory |
| `FileTree.FileCopyMeans` | lib/libze/libze_util.c:318-381 | Whatever the end, only the destination changes; success means it holds the content or, when it is named as cut short, a beginning of it |
| `FileTree.LostFlush` | lib/libze/libze_util.c:332-334 | A concrete tree in which a file with content is reported as copied and its copy is empty |
| `FileTree.CopyComplete` | lib/libze/libze_util.c:400-461 | When all names are done the whole tree is overlaid |
| `FileTree.CopyStep` | lib/libze/libze_util.c:535-585 | A child copied after others extends the overlay by exactly that child |
| `FileTree.CopiedKinds` | lib/libze/libze_util.c:535-585 | A copy that succeeded found directories where it put directories, and no directory where it put a file |
| `FileTree.CopyableChild` | lib/libze/libze_util.c:535-585 | What a copy asks of the tree passes on to every child not yet copied, whatever order they come in |
| `FileTree.AllFitParts` | lib/libze/libze_util.c:549-574 | A copy keeps within the path limit if and only if both directories leave room for `/..` and every child keeps within it |
| `FileSystems.FileSystem.RemoveDir` | lib/libze/libze_util.c:593-611 | In every outcome nothing outside the directory changes; success means it and all below it are gone and all else is there. When system calls only fail for a reason in the tree, it succeeds if and only if it is a directory other than the root and every path in it is within the limit |
| `FileSystems.FileSystem.EmptyDir` | lib/libze/libze_util.c:400-461 | The walk with the remove callback leaves the directory, empty |
| `FileSystems.FileSystem.RemoveChild` | lib/libze/libze_util.c:477-523 | The callback removes a file, or a directory with all below it |
| `FileTree.EmptiedDir` | lib/libze/libze_util.c:515-523 | When all names are gone the directory is empty, so that it can be removed |
| `FileTree.ReachableParts` | lib/libze/libze_util.c:415-441 | A directory can be walked if and only if its path leaves room for `/..` and each child can be reached |
| `FileTree.GoneKeepsTree` | lib/libze/libze_util.c:477-523 | Taking a subtree away leaves every other entry in a directory |
| `FileSystems.FileSystem.MakeDirs` | lib/libze/libze_util.c:619-661 | Only prefixes of the path cut at a slash are added, as directories, and no entry changes; success makes every such prefix a directory; the buffer is whole again at each next step. It succeeds when no file stands where a directory is needed and calls only fail for a reason in the tree. A path too long for the buffer is cut short without an error |
| `FileTree.RoomForPrefix` | lib/libze/libze_util.c:626-645 | The parent of each prefix is the root or an earlier prefix, so every call has a directory to put its own in |
| `Names.CutAndNameRejoin` | lib/libze/libze_util.c:53-168 | Cutting a path at its last slash and taking its name gives a root and a name if and only if the path is the two joined and the name has no slash |
| `Names.ByNameIsByPath` | lib/libze/libze_util.c:178-202 | For a slash-free name the running test by name in rename, the test by path in destroy, and equality with the joined path agree |
| `Names.CutInto` | lib/libze/libze_util.c:53-69 | The buffer holds the part before the last delimiter, exactly when the path fits and has one |
| `Names.SplitInto` | lib/libze/libze_util.c:82-105 | Both parts, exactly when the path fits and has the delimiter |
| `Names.NameInto` | lib/libze/libze_util.c:149-168 | The part behind the last slash, moved to the front of the same buffer |
| `Names.SuffixInto` | lib/libze/libze_util.c:118-137 | The part behind the root; when the dataset is not longer than the root, the old content of the buffer behind it is read, which is empty only in a cleared buffer |
| `Props.SetThenGet` | lib/libze/libze.c:27-71 | A `[plugin:]name=value` text is stored under the key the handle or the plugin looks up, with its value, if and only if it names a plugin or neither name nor value has a colon |
| `Props.KeysDiffer` | lib/libze/libze.c:573-606 | Different plugins and names never share a key |
| `Props.KeysAreKept` | lib/libze/libze.c:526-555 | Every such key passes the namespace filter |
| `Props.KeptIs` | lib/libze/libze.c:526-555 | The filter keeps exactly the keys of the namespace, anything, a colon and a colon-free name, so that a longer namespace passes too |
| `Props.AddSetProperty` | lib/libze/libze.c:310-354 | The buffers cut in place give the stored key and value; each of the three errors is characterised |
| `Props.ParseInto` | lib/libze/libze.c:27-71 | Prefix and rest of a property text, exactly when they fit |
| `Props.DefaultsNeverOverride` | lib/libze/libze.c:462-513 | After filling in defaults every set property has its value, and every other one its first default of the namespace |
| `Props.InNamespaceIs` | lib/libze/libze.c:462-513 | A default belongs to a namespace if and only if its name is that, a colon and a colon-free name |
| `Props.FillingTwice` | lib/libze/libze.c:462-513 | Filling in again changes nothing |
| `Props.FillDefaults` | lib/libze/libze.c:462-513 | The nested loops compute that filling, and stop at a default without a colon |
| `Props.AddDefaults` | lib/libze_plugin/libze_plugin_systemdboot.c:205-248 | The plugin's loop computes the same filling |
| `Pools.RenameKeepsValid` | lib/libze/libze.c:2640-2650 | A rename of a subtree to a free name outside it that leaves room for all names keeps ancestors, origins, snapshots and mounts consistent |
| `Pools.RenameMovesEach` | lib/libze/libze.c:2640-2650 | Every filesystem is found under its new name with its origin renamed along, and can be traced back |
| `Pools.RenameUndoes` | lib/libze/libze.c:2640-2650 | Renaming back restores the pool |
| `Pools.PromotionIsValid` | lib/libze/libze.c:1306-1312 | A promotion moves the origin to the clone, which takes over its parent's origin while the parent becomes its clone, and keeps the pool consistent |
| `Names.LegalJoin` | lib/libze/libze.c:193-204 | A dataset name put together from a root and a name is one that ZFS takes if and only if both are |
| `DestroyTree.Destroy` | lib/libze/libze.c:1992-2044 | In every outcome: only filesystems within the dataset go, none of them mounted unless by force, only their snapshots and the origins of those that went, and every surviving clone has its origin. Success means that the subtree is gone, and the origins when asked for, and that it had no mounts, or by force no mount above another. A dataset that is mounted with something mounted below it stays, and the call fails. When calls only fail for a reason in the pool it succeeds if the mounts allow it and no clone stands in the way; the recursion ends |
| `DestroyTree.BranchIsUnique` | lib/libze/libze.c:2024-2029 | Whatever stands below a dataset stands within exactly one of its children, so the walk over children misses nothing |
| `DestroyTree.ClonesOutside` | lib/libze/libze.c:2003-2044 | A destroy that succeeded took no snapshot that a filesystem outside was cloned from, and, with origins asked for, shared none of them with one outside |
| `MountTree.UnmountTree` | lib/libze/libze.c:2777-2797 | Nothing outside the subtree changes; success leaves nothing in it mounted. Since a filesystem with something mounted below it cannot be unmounted, and this always succeeds when calls only fail for that reason, children come before their parent |
| `MountTree.MountTree` | lib/libze/libze.c:2396-2442 | In every outcome only filesystems due for mounting were mounted, each after all due ones it stands within; a walk that came to its end mounted all of them. When calls only fail for a reason in the pool no iteration breaks off, and the walk comes to its end when all were unmounted and their mountpoints fit |
| `MountTree.MountedBelow` | lib/libze/libze.c:2396-2442 | Mounting within a child keeps the order of parents first |
| `CloneTree.Collect` | lib/libze/libze.c:1499-1532 | The walk records each filesystem of the subtree exactly once, parents first, each with canmount=noauto and exactly its own writable properties |
| `CloneTree.SettingsFor` | lib/libze/libze.c:1454-1491 | A property is recorded if and only if it is writable and set on the dataset itself, or is canmount |
| `CloneTree.WalkStep` | lib/libze/libze.c:1499-1532 | The walk of one more child keeps the record complete, free of repeats and ordered |
| `CloneTree.CloneAll` | lib/libze/libze.c:1551-1634 | In every outcome at most the new environment's own dataset is added, as a clone of the named snapshot, which succeeds when the pool allows it; a recursive clone of a dataset with children fails, because of the order of arguments at line 1591 |
| `Handles.OpenHandle` | lib/libze/libze.c:1116-1198 | The handle is that of the running dataset and the bootfs, and both environments are present; a boot pool root without a slash is refused. When calls only fail for a reason in the pool and the plugin can be opened, it is opened for every usable pool |
| `Handles.ValidateExisting` | lib/libze/libze.c:90-169 | Succeeds only for an environment that is present on both pools |
| `Handles.ValidateNew` | lib/libze/libze.c:185-233 | Succeeds exactly for a name that is free on both pools |
| `Handles.BootDsIs` | lib/libze/libze.c:1043-1064 | The boot pool dataset of an environment is the boot pool root, a slash, and the name behind the prefix and a dash |
| `Commands.Activate` | lib/libze/libze.c:1376-1436 | The bootfs stays or becomes the named, existing environment. When it takes effect and succeeds, canmount=noauto is set on all that is reached through clones and each of these clones is promoted, on the boot pool its dataset gets canmount=noauto, and an environment that was mounted for it has its mountpoint back at `/`. When calls only fail for a reason in the pool and hooks succeed, it takes effect if and only if the environment is running or can be unmounted; otherwise it reports success, without a plugin with nothing changed |
| `Commands.TempUnmount` | lib/libze/libze.c:846-874 | A dataset that was mounted ends unmounted, with mountpoint `/` and canmount=noauto; one that was not stays as it is; when calls only fail for a reason in the pool it succeeds exactly if nothing mounted below keeps it busy |
| `Commands.MidActivate` | lib/libze/libze.c:1334-1366 | Only the environment's own mount, mountpoint and canmount can change; on success one that is not running, and was mounted or is mounted for the plugin, ends unmounted with mountpoint `/` and canmount=noauto, and nothing else has changed; when calls only fail for a reason in the pool and hooks succeed, it succeeds exactly if the environment is running or can be unmounted |
| `Commands.ActivateTree` | lib/libze/libze.c:1293-1319 | Filesystems, mounts and mountpoints stay; success sets canmount=noauto on every dataset that is reached from the first through clones only, and has promoted each of these that is a clone; if the first is none, only its own canmount can change. It succeeds when calls only fail for a reason in the pool and it is no clone, or can be promoted and has no clones below |
| `Commands.DestroyBe` | lib/libze/libze.c:2149-2226 | What goes lies within the named environment, which is neither bootfs nor running, or within its boot pool dataset, none of it mounted unless by force, with its snapshots only and the origins when asked for; success removes both subtrees and these origins, and needs mounts that allow it; an environment that is mounted with something mounted below it stays and the call fails; it succeeds when nothing stands in the way on either pool |
| `Commands.DestroyBeSnap` | lib/libze/libze.c:2088-2141 | Only the named snapshots go; success means that both are gone and needs a boot pool; without one, a snapshot that can go is destroyed and a failure reported; with one, it succeeds when both can go |
| `Commands.RenameBe` | lib/libze/libze.c:2593-2672 | The pool is as before, or renamed once, or on both pools, and only to a legal name and for a present environment that is neither running nor active nor mounted on either pool; it succeeds, with all renames done, for every such environment and every free legal name that leaves room for all names below, when calls only fail for a reason in the pool and hooks succeed |
| `Commands.SnapshotBe` | lib/libze/libze.c:2684-2761 | Filesystems stay, and with a plugin only the environment's own mounts can change; success adds exactly the snapshots of the environment's subtrees on both pools; when calls only fail for a reason in the pool and hooks succeed it succeeds for every present environment when all of these snapshots are new and their names legal and short enough, and, with a plugin, it is running or can be mounted |
| `Commands.SnapshotIsNamed` | lib/libze/libze.c:2695-2720 | The snapshot that is taken is the one that destroy takes when given the environment's name, an at sign and the tag |
| `Commands.PreSnapshot` | lib/libze_plugin/libze_plugin_systemdboot.c:1486-1611 | The hook leaves filesystems and snapshots alone and changes no mounts but the environment's own |
| `Commands.Create` | lib/libze/libze.c:1869-1975 | Everything that was there stays as it was, and only the new names are added. Success makes the environment, whose name is legal, a clone of the very snapshot that was named, or else of the one just taken, with canmount=noauto and with the properties the source sets itself, and the same on the boot pool; from an existing source it never succeeds with a boot pool, and recursively never for a source with children. Without a plugin it succeeds, from the bootfs, a snapshot or a filesystem, for every free legal name when the snapshots are there or can be taken |
| `Commands.PrepareBootPool` | lib/libze/libze.c:1691-1733 | The check that makes create from an existing source fail with a boot pool: it looks for the environment still to be created |
| `Commands.MountBe` | lib/libze/libze.c:2454-2576 | Only filesystems of the environment with a mountpoint of their own and its boot pool dataset can have been mounted; success means at the directory that was given, or a temporary one, and that all of them are mounted, or that an iteration broke off, which is always reported as success; when calls only fail for a reason in the pool it succeeds with all mounted when all of them were unmounted and their paths fit |
| `Commands.UnmountBe` | lib/libze/libze.c:2805-2856 | Success leaves nothing of the environment mounted on either pool and all else as it was, and is reached only for a present environment that is mounted and not running, and for every such one when calls only fail for a reason in the pool |
| `Lifecycle.RunKeepsSafe` | lib/libze/libze.c:1376-1436 | Over every run of commands and reboots, in every outcome, bootfs and running dataset exist and stand right below the root, given that activated names have no slash and the boot pool's root is neither the root nor above it |
| `Lifecycle.StepKeepsSafe` | lib/libze/libze.c:2149-2226 | Each single step keeps that; only activate asks anything of the name |
| `Lifecycle.ActivateIsSafeIff` | lib/libze/libze.c:1401-1405 | After an activate that took effect the state is safe if and only if the name has no slash |
| `Lifecycle.KeptStays` | lib/libze/libze.c:2165-2175 | Neither a destroy nor a rename can touch the bootfs or the running dataset, whatever name it is given |
| `Lifecycle.BootPoolIsApart` | lib/libze/libze.c:1043-1064 | No boot pool dataset of any name holds a direct child of the root, when the roots are apart |
| `Lifecycle.BootPoolReaches` | lib/libze/libze.c:1043-1064 | Without that some name would reach an environment, exactly if its path begins like a boot pool dataset |
| `Lifecycle.RunCommand` | src/zectl.c:92-204 | One command on a fresh handle takes one step, and leaves alone in every outcome what it is not about. A success means the command's effect on the pool: the named clone made, the subtree or snapshot gone, every name renamed, exactly the snapshots taken, the environment mounted or unmounted, or the activate done or without any effect. When calls only fail for a reason in the pool and hooks succeed, it succeeds on a usable pool whenever nothing in the pool stands in its way |
| `Lifecycle.Dispatch` | src/zectl.c:92-204 | The same on a given handle, for the functions behind the commands, two of which refuse an active environment and a target with a slash |
| `Lifecycle.RunAll` | src/zectl.c:92-204 | The program itself, over any list of commands and reboots, ends in a safe state |

## Left out

- General regular expressions: only literals, `.`, bracket lists without ranges, `*` and adjacent groups are read.
- Names and mountpoints with one of the characters `[ \ * ^ $`, which the patterns' contracts exclude: no dataset's name has them, but the properties that hold the efi and boot mountpoints could. Only dots are escaped, so such a mountpoint would be read as part of the pattern.
- FstabFileLastWriterWins: asks for lines of fewer than 255 characters, since longer ones are cut into chunks at other places after a rewrite; and for a non-empty boot mountpoint, since an empty one matches behind the newline.
- EntryFileRoundTrip: asks for the same length of lines, for lines without `%` in which no seam takes in the name, for no line but the last to lose its newline to the name, and for a first pass that gets to the end of the file.
- CallbackRoundTripExactly: leaves out names that are empty or begin with a dot; where a seam takes in the name and both passes fail, their errors may agree or not.
- CfgLineExactly: leaves out titles in which a backslash swallows two digits or more in a row, the first of them naming a group that is empty or begins with a backslash. `TitleLineText` gives the result for these too.
- Real libzfs, libzpool, nvlist, `mount`, `dlopen` and `/proc/mounts` calls; errno values, messages, timestamps and temporary file names, which are arbitrary values where they matter.
- Pools.Zfs.Promote: leaves open which snapshots older than the origin move along with it, since creation times are not modelled.
- Create: with a plugin, no case is stated in which it must succeed, since the mountpoint a clone inherits is not modelled, and the step after it asks for one.
- A `readdir` that fails in the middle of a directory, symbolic links, special files, permissions, and changes by others to the file tree or the pool.
- Mountpoints of ZFS filesystems: a filesystem counts as busy when one below it by name is mounted, as it is when mountpoints nest as names do. A child that is mounted elsewhere does not keep its parent busy; the "only if" of `Activate` and the failing half of `Destroy` assume that there is none.
- Other reasons libzfs has to refuse: nesting depth, quotas, holds, encryption, a directory that is not there to mount on.
- Wrong answers: `zfs_dataset_exists`, `zfs_is_mounted` and reading the origin of an open handle are taken to say what is the case, though the code cannot tell their failure from a no. So is `mkdtemp` in `temp_mount_be`, whose result is tested through the wrong pointer.
- I/O errors of `fgets`, `fwrite` and `fflush` in `replace_matched`, which does not look at them.
- DestroyTree.Unhindered: it is a condition for success whatever order the children come in. A clone outside the subtree always stands in the way (`ClonesOutside`); one inside may be gone in time.
- Paths with `.` and `..` as components in `MakeDirs`.
- Allocation failure, except the work buffer of `Replace`.
- `zectl set` during a run: boot pool root, prefix and plugin are constants of a run.
- The plugin's hooks beyond the file rewriting: they succeed or fail. They leave the pool alone, but for the pre-snapshot hook, which mounts and unmounts an environment that is not running, and overwrites the error of its copies with the result of the unmount (`PreSnapshot`).
- Command-line parsing, listing, and printing of properties.
