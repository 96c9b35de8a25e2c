# jek-to-hug: path and configuration rewriting, in Dafny

jek-to-hug migrates a Jekyll site to Hugo. This project models the two rewriting
rules at the heart of the tool. It also models the Go `strings` operations that
those rules are built from.

- **Path remapping** (`migratePath` with its table `specialDirs`). A source path
  is split on the path separator. Each segment that is exactly a Jekyll special
  directory (`_sass`, `_data`, `_layouts`, `_includes`, `pages`, `assets`, `js`,
  `css`) is replaced by the Hugo sub-path that takes its place. The pieces are
  written back with one separator between neighbours. `PathMigration.MigratePath`
  is the builder loop. It is proved equal to the specification function
  `MigratedPath`, which is the join of the mapped segments of the split path. The lemmas about
  `MigratedPath` cover:
  - the split/join round trip;
  - exact whole-segment matching;
  - segment-by-segment locality;
  - fixed points;
  - non-idempotence.
- **Configuration line translation** (`migrateConfig` with its omit set). A line
  of `_config.yml` is cut at the first `#` and split on every `:`. It is dropped
  when the payload is empty, when it has no `:`, or when its untrimmed key is one
  of `markdown`, `baseurl`, `sass`, `plugins` or `defaults`. Otherwise
  `exclude` becomes `ignoreFiles`: every `.` in its value is escaped and `$` is
  appended. `url` becomes `BaseURL`. All fields are then joined with `=`.
  `ConfigMigration.MigrateConfig` returns the same `(line, omit)` pair as the
  code. `ConfigMigration.TranslateLine` gives the same result as
  `Keep(line) | Omit`.
- **Go strings** (`GoStrings`). `Split`, `Cut`, `ReplaceAll` and `Join` behave
  as Go's do, restricted to the one-character separators and patterns the tool
  passes them. An empty input splits into one empty piece. Adjacent separators
  give an empty piece between them.

Three consequences of the code as written, which the model keeps:

- The escape for a dot in an `exclude` value is Go's raw literal `\\.`
  (main.go:204), so two backslash characters and then a dot are written
  (`EscapedDot`).
- The payload is split on every `:` (main.go:194), not only the first, so
  `url: http://host` becomes `BaseURL= http=//host`
  (`ConfigMigration.UrlExample`).
- Values keep their leading spaces, so `url: /blog` becomes `BaseURL= /blog`.
  Keys are compared untrimmed too, so an indented ` url` is not renamed
  (`ConfigMigration.IndentedUrlExample`).

The files are:

- `go_strings.dfy`: module `GoStrings`.
- `path_migration.dfy`: module `PathMigration`.
- `config_migration.dfy`: module `ConfigMigration`.

## Model

| member | source | states |
|---|---|---|
| GoStrings.Split | main.go:194 | there is at least one piece and no piece holds the separator; text without the separator is its own only piece; text with one has at least two pieces |
| GoStrings.Join | main.go:211 | the join of no parts is empty; otherwise the first part is a prefix of the join |
| GoStrings.Cut | main.go:192 | the found flag holds exactly when the separator occurs; the part before it holds no separator; when found, the text is before + separator + after; otherwise the text is returned whole with an empty rest |
| ConfigMigration.Payload | main.go:192 | the comment-free payload is the longest `#`-free prefix of the line: a prefix without `#`, the whole line when it has no `#`, and otherwise followed in the line by a `#` |
| GoStrings.ReplaceAll | main.go:204 | text without the pattern is unchanged; every character of the result is a non-pattern character of the input or a character of the replacement |
| GoStrings.JoinSplit | main.go:118-139 | joining the split pieces with the same separator gives back the input |
| GoStrings.SplitJoinInverse | main.go:118 | splitting the join of separator-free parts gives back exactly those parts |
| GoStrings.SplitJoin | main.go:118 | splitting a join gives the pieces of each joined part, in order |
| GoStrings.SplitConcat | main.go:118 | a separator splits the text around it into the pieces of the left side followed by the pieces of the right side |
| GoStrings.SplitEachSeparatorFree | main.go:118 | parts that hold no separator are their own pieces |
| GoStrings.SplitExcludes | main.go:194 | a character missing from the text is missing from every piece |
| GoStrings.JoinExcludes | main.go:211 | a character in neither the parts nor the separator is not in the join |
| GoStrings.ReplaceAllIsJoinSplit | main.go:204 | replacing a one-character pattern is the same as splitting on it and joining with the replacement |
| GoStrings.ReplaceAllSelf | main.go:204 | replacing a character by itself changes nothing |
| GoStrings.ReplaceAllConcat | main.go:204 | replacing in a concatenation is replacing in each side |
| GoStrings.CutPrefix | main.go:192 | text that starts with a prefix free of the cut character keeps that prefix in front of what is cut from the rest |
| PathMigration.SpecialDirsShape | main.go:43-52 | every key of the table `SpecialDirs` is one non-empty segment without a separator; every value is non-empty and neither starts nor ends with a separator |
| PathMigration.MapSegment | main.go:121-130 | a segment is changed by the lookup exactly when it is a key of the table |
| PathMigration.MigratedPath | main.go:118-139 | the specification of the rewrite: a path without a separator migrates to its own lookup |
| PathMigration.MigratePath | main.go:116-142 | the builder loop returns the segments of the path, each replaced by its table value when it is a key, joined with one separator between neighbours and none at the end |
| PathMigration.JoinStep | main.go:121-138 | writing a segment after the separator-terminated output so far extends the join by that segment, and a further separator ends it again |
| PathMigration.JoinSnoc | main.go:133-138 | joining one more part appends the separator and that part, and with no earlier parts gives just that part |
| PathMigration.MigratedPathSegments | main.go:118-139 | the segments of the migrated path are the segments of each input segment's replacement, in input order |
| PathMigration.MigratedPathUnchanged | main.go:118-141 | a path with no key segment is returned unchanged |
| PathMigration.MigratedPathFixedPoint | main.go:116-142 | a path is returned unchanged exactly when none of its segments is a key, in both directions |
| PathMigration.KeySegmentChangesJoin | main.go:120-139 | migrating separator-free segments changes their join as soon as one of them is a key |
| PathMigration.HeadKeyChangesJoin | main.go:120-139 | when the first of separator-free segments is a key, migrating them changes their join |
| PathMigration.ReplacementHeadDiffers | main.go:43-52 | the first segment of every table value differs from its key |
| PathMigration.MigratedPathCons | main.go:120-139 | migration is local to segments: the first segment's replacement, one separator, then the migrated rest |
| PathMigration.NotAKey | main.go:43-52 | a segment whose length no key has, or that is not `assets` when it has length 6, is not a key and maps to itself |
| PathMigration.EmptyPathExample | main.go:118-141 | the empty path maps to the empty path |
| PathMigration.SassPathExample | main.go:44 | `_sass/<name>` becomes `assets/scss/<name>` for any separator-free file name that is not a key |
| PathMigration.NoPartialMatchExample | main.go:121 | `my_sass/_sass2` is unchanged: only whole segments match |
| PathMigration.MigratedPathNotIdempotent | main.go:44-51 | `_sass/<name>` becomes `assets/scss/<name>` and a second pass gives `static/scss/<name>` |
| PathMigration.SecondPass | main.go:49-51 | a second pass over `assets/scss/<name>` rewrites only the leading `assets`, giving `static/scss/<name>` |
| ConfigMigration.MigrateConfig | main.go:182-213 | the omit flag holds exactly when the comment-free payload is empty, has no `:`, or has an omitted key before its first `:`; an omitted line carries the empty text |
| ConfigMigration.TranslateLine | main.go:197-212 | `Keep(line)` corresponds exactly to the pair `(line, false)` and `Omit` to `("", true)`, so a kept line never carries the flag |
| ConfigMigration.RewriteKey | main.go:201-208 | only the first two fields can change; the number of fields is kept; keys other than `exclude` and `url` leave all fields alone |
| ConfigMigration.OmitKeyChars | main.go:183-190 | no key of the omit set `OmitKeys` holds `:` or `#`, so a line that starts with one can reach the omit test |
| ConfigMigration.OmitKeyLine | main.go:183-199 | a line `<key>:<anything>` with an omitted key is dropped, whatever the value |
| ConfigMigration.KeptLineShape | main.go:192-212 | a kept line holds no `:` and no `#` |
| ConfigMigration.PlainKeyRewrite | main.go:192-212 | for a kept line whose key is neither `exclude` nor `url`, the output is the comment-free payload with every `:` replaced by `=` |
| ConfigMigration.UrlRewrite | main.go:201-211 | a `url:<rest>` payload becomes `BaseURL=` followed by the rest with every `:` replaced by `=` |
| ConfigMigration.UrlFields | main.go:194 | the fields of `url:<rest>` are `url` followed by the fields of the rest |
| ConfigMigration.UrlJoin | main.go:206-211 | the renamed fields of a `url` payload join to `BaseURL=` followed by the rest with `:` replaced by `=` |
| ConfigMigration.ExcludeRewrite | main.go:201-211 | an `exclude:<value><more>` payload becomes `ignoreFiles=`, then the value with every `.` replaced by two backslashes and a dot, then `$`, then the later fields with `:` replaced by `=` |
| ConfigMigration.ExcludeFields | main.go:194 | the fields of `exclude:<value><more>` are `exclude`, the value, then the fields after the next `:` |
| ConfigMigration.ExcludeJoin | main.go:202-211 | the rewritten fields of an `exclude` payload join to the escaped and anchored value followed by the later fields |
| ConfigMigration.KeyValueFields | main.go:194 | the fields of `<key>:<value><more>` are the key, the value, then the fields after the next `:` |
| ConfigMigration.ValueFields | main.go:194 | the fields of a `:`-free value followed by nothing or by `:` and more are the value, then the later fields |
| ConfigMigration.UrlExample | main.go:194-211 | `url: <scheme>://<host>` becomes `BaseURL= <scheme>=//<host>`: the value keeps its space and loses the scheme colon |
| ConfigMigration.SchemeColonReplaced | main.go:211 | in ` <scheme>://<host>` only the scheme colon turns into `=` |
| ConfigMigration.ReplaceOneColon | main.go:211 | the only `:` of a text becomes `=` and nothing else changes |
| ConfigMigration.ExcludeExample | main.go:202-205 | `exclude:<stem>.<ext>` becomes `ignoreFiles=<stem>`, two backslashes, a dot, `<ext>$` |
| ConfigMigration.IndentedUrlExample | main.go:201-208 | an indented ` url:<value>` is not renamed and becomes ` url=<value>` |
| ConfigMigration.IndentedUrlFields | main.go:194 | the fields of ` url:<value>` are ` url` and the value |
| ConfigMigration.OmittedExamples | main.go:192-199 | a comment-only line and a line without `:` are dropped with the empty text |

## Left out

- `main` (main.go:54-63) is not modelled. It only checks the command-line arguments and exits.
- `walk` (main.go:65-108) is not modelled. It walks the file system, creates directories and dispatches moves by file extension.
- `migrateConfigFile` (main.go:144-180) is not modelled. It opens the files and scans them line by line, which is file I/O. It also writes each kept line to the handle of the Jekyll file it is reading, not to the Hugo file, and adds no newline. That defect lies in the I/O layer outside this model.
- `moveFile` (main.go:215-221) is not modelled. It is a thin wrapper around `os.Rename`.
- The error returns of `strings.Builder.WriteString` in `migratePath` (main.go:122-137) are left out. Writes to a builder never fail, so `PathMigration.MigratePath` returns the path alone.
- The platform-specific separator (main.go:41) is fixed to `/` in the model.
- GoStrings.Split, GoStrings.Cut and GoStrings.ReplaceAll cover only one-character separators and patterns. Those are the only ones the tool passes. Go's versions also accept longer and empty separators.
- GoStrings.ReplaceAll: its own ensures gives only the pattern-free case and where the result's characters come from. `GoStrings.ReplaceAllIsJoinSplit`, `GoStrings.ReplaceAllConcat` and `GoStrings.ReplaceAllCons` pin the result down exactly.
- GoStrings.Join: its own ensures states only the empty case and that the first part is a prefix. The exact result is fixed by `GoStrings.JoinSplit` and `GoStrings.SplitJoin`, and by the helper `GoStrings.JoinCons`, which unfolds one part.
- PathMigration.MigratedPath: its own ensures covers only a path of one segment. The general behaviour is stated by `PathMigration.MigratedPathSegments`, `PathMigration.MigratedPathCons` and `PathMigration.MigratedPathFixedPoint`.
- ConfigMigration.UrlExample, ConfigMigration.ExcludeExample and ConfigMigration.IndentedUrlExample are stated over symbolic scheme, host, file-name and value parts rather than one fixed literal line. Each therefore covers every line of that shape.
- Go strings are byte sequences; the model's strings are sequences of Unicode characters. The two agree on valid UTF-8, because every character the code splits, cuts or replaces on (`/`, `#`, `:`, `.`) is ASCII and never occurs inside a multi-byte sequence, and what it inserts (`=`, `\`, `$` and the new key names) is ASCII too. A line or path holding invalid UTF-8 has no counterpart in the model.
- The YAML and TOML grammars are not modelled. The code treats each line as text, and so does the model.
