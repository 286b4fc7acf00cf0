# MSF4J server generator: operation grouping and overwrite guard

This project models the own decision logic of `JavaMSF4JServerCodegen`. That
class plugs into swagger-codegen and generates Java JAX-RS servers for the
MSF4J micro-service framework. Four of its operations are modelled:

- `addOperationToGroup` files each API operation under a group key. The key is
  the first segment of the operation's resource path, or `default` when there
  is none. The operation's path is rewritten relative to that group. Each
  group becomes one generated service class.
  It is modelled as `OperationGrouping.OperationGroups.AddOperationToGroup`,
  a method on an accumulator object. That object holds the caller's
  `operations` map. The method updates a `CodegenOperation` object in place.
  The pure functions `BasePath`, `GroupKey`, `RewritePath` and `AppendToGroup`
  specify the method.
- `shouldOverwrite` protects hand-edited service implementation and factory
  classes from being overwritten when the code is regenerated. It is modelled
  as the pure function `OverwriteGuard.ShouldOverwrite`. Each of its two
  regular expressions is stated as an explicit string predicate, and the
  framework's own policy is passed in as a function parameter.
- `toModelName` appends `DTO`. It is modelled as `ModelProcessing.ToModelName`.
- `postProcessModelProperty` drops an example spelled `"null"` and makes the
  model import `SerializedName`. It is modelled as a method over
  `CodegenModel` and `CodegenProperty` objects.

The `java.lang.String` operations the code calls (`startsWith`, `indexOf`)
are in module `JavaStrings`, together with `EndsWith`. The source never calls
`endsWith`; the model uses it to state the anchored literal suffix of the two
overwrite patterns and the `DTO` suffix that `toModelName` appends.

The key `basePath == ""` test at line 178 compares references, not contents.
The model follows the evident intent, which is emptiness. `GroupKeyAsWritten`
models the key the comparison gives when the references differ. The else
branch then also runs on an empty base path: for resource path "/" it strips
the prefix "/" from an operation path "/", leaving it empty, and sets
`subresourceOperation` to false (see Findings).

A `//x` resource path is not cut at its second slash, because the source
checks `pos > 0`. The model keeps that behaviour and proves it in
`DoubleSlashExample`.

## Model

| member | source | states |
|---|---|---|
| JavaStrings.StartsWith | src/main/java/org/wso2/maven/plugins/JavaMSF4JServerCodegen.java:170 | `s.startsWith(prefix)` as called at lines 170 and 181: `prefix` is no longer than `s` and equals its first characters |
| JavaStrings.IndexOf | src/main/java/org/wso2/maven/plugins/JavaMSF4JServerCodegen.java:173 | `indexOf("/")` is -1 exactly when there is no '/'; otherwise the character there is '/' and none comes before it |
| JavaStrings.IndexOfIsFirst | src/main/java/org/wso2/maven/plugins/JavaMSF4JServerCodegen.java:173 | an index holding '/' with no '/' before it is the result of `indexOf` |
| OperationGrouping.StripLeadingSlash | src/main/java/org/wso2/maven/plugins/JavaMSF4JServerCodegen.java:169-172 | exactly one leading '/' is removed: the input is "/" + result when it starts with '/', and the result otherwise |
| OperationGrouping.BasePath | src/main/java/org/wso2/maven/plugins/JavaMSF4JServerCodegen.java:169-176 | the base path is a prefix of the stripped path; it is either all of it or a non-empty slash-free part ending just before a '/'; it keeps a '/' only when the stripped path starts with one |
| OperationGrouping.BasePathIsFirstSegment | src/main/java/org/wso2/maven/plugins/JavaMSF4JServerCodegen.java:169-176 | the base path equals an independent recursive "first segment" definition, except when the stripped path starts with '/', which leaves it whole |
| OperationGrouping.BasePathEmptyIff | src/main/java/org/wso2/maven/plugins/JavaMSF4JServerCodegen.java:169-179 | the base path is empty exactly for the resource paths "" and "/" |
| OperationGrouping.GroupKey | src/main/java/org/wso2/maven/plugins/JavaMSF4JServerCodegen.java:169-180 | the group key is never empty; it is the base path, or "default" when the base path is empty |
| OperationGrouping.SlashFreeKey | src/main/java/org/wso2/maven/plugins/JavaMSF4JServerCodegen.java:169-176 | a non-empty resource path without '/' is its own group key |
| OperationGrouping.FirstSegmentIsKey | src/main/java/org/wso2/maven/plugins/JavaMSF4JServerCodegen.java:169-176 | segment + "/" + rest, with or without a leading '/', is filed under the segment |
| OperationGrouping.GroupKeyAsWritten | src/main/java/org/wso2/maven/plugins/JavaMSF4JServerCodegen.java:178-179 | with the reference test's outcome as a parameter, the key is "default" or the base path |
| OperationGrouping.AsWrittenDiffers | src/main/java/org/wso2/maven/plugins/JavaMSF4JServerCodegen.java:178 | the written key differs from the intended one exactly when the base path is empty and the reference test fails |
| OperationGrouping.AsWrittenRootHasEmptyKey | src/main/java/org/wso2/maven/plugins/JavaMSF4JServerCodegen.java:170-184 | resource path "/" gets the empty key when the reference test fails, and "default" as intended; the else branch's rewrite then turns an operation path "/" into the empty path |
| OperationGrouping.RewritePath | src/main/java/org/wso2/maven/plugins/JavaMSF4JServerCodegen.java:181-183 | the rewritten path is a suffix of the path; the path is "/" + key + result exactly when it starts with "/" + key; otherwise nothing changes |
| OperationGrouping.RewriteStripsKey | src/main/java/org/wso2/maven/plugins/JavaMSF4JServerCodegen.java:181-183 | a path "/" + key + c is rewritten to c |
| OperationGrouping.GroupOf | src/main/java/org/wso2/maven/plugins/JavaMSF4JServerCodegen.java:186-190 | the group's list is the stored one, or empty when the key is absent |
| OperationGrouping.AppendToGroup | src/main/java/org/wso2/maven/plugins/JavaMSF4JServerCodegen.java:186-191 | the keys gain only the group key; that group is its old list (or empty) plus the operation; every other group is unchanged |
| OperationGrouping.OperationGroups.AddOperationToGroup | src/main/java/org/wso2/maven/plugins/JavaMSF4JServerCodegen.java:167-193 | the map becomes AppendToGroup(old map, GroupKey, co); `co.baseName` is the key; for a non-empty base path `co.path` is rewritten and `subresourceOperation` says whether anything remains; otherwise both stay as they were |
| OperationGrouping.FilingPreservesPartition | src/main/java/org/wso2/maven/plugins/JavaMSF4JServerCodegen.java:186-192 | filing one more operation keeps every operation filed once, under its own non-empty key, in processing order |
| OperationGrouping.GroupAllPartitions | src/main/java/org/wso2/maven/plugins/JavaMSF4JServerCodegen.java:186-192 | after any sequence of calls, every operation is in exactly one group, its own key's, and each group keeps call order |
| OperationGrouping.PetsExample | src/main/java/org/wso2/maven/plugins/JavaMSF4JServerCodegen.java:169-176 | "/pets/{id}" is filed under "pets" |
| OperationGrouping.PetsPathExample | src/main/java/org/wso2/maven/plugins/JavaMSF4JServerCodegen.java:181-183 | under "pets", "/pets/{id}" becomes "/{id}" |
| OperationGrouping.StoreExample | src/main/java/org/wso2/maven/plugins/JavaMSF4JServerCodegen.java:169-176 | "store/inventory" is filed under "store" |
| OperationGrouping.StorePathExample | src/main/java/org/wso2/maven/plugins/JavaMSF4JServerCodegen.java:181-183 | under "store", "/store/inventory" becomes "/inventory" |
| OperationGrouping.RootExample | src/main/java/org/wso2/maven/plugins/JavaMSF4JServerCodegen.java:178-179 | "/" and "" fall into the "default" group |
| OperationGrouping.DoubleSlashExample | src/main/java/org/wso2/maven/plugins/JavaMSF4JServerCodegen.java:173-176 | "//a/b" has base path "/a/b": a '/' at index 0 does not cut |
| OperationGrouping.RawPrefixExample | src/main/java/org/wso2/maven/plugins/JavaMSF4JServerCodegen.java:181-182 | the prefix is raw text: key "pet" turns "/petstore" into "store" |
| OverwriteGuard.IsLineTerminator | src/main/java/org/wso2/maven/plugins/JavaMSF4JServerCodegen.java:197-198 | the characters `.` of java.util.regex without flags does not match: `\n`, `\r`, U+0085, U+2028, U+2029 |
| OverwriteGuard.AnyChars | src/main/java/org/wso2/maven/plugins/JavaMSF4JServerCodegen.java:197-198 | the text is matched by `.*`: it holds no line terminator |
| OverwriteGuard.MatchAt | src/main/java/org/wso2/maven/plugins/JavaMSF4JServerCodegen.java:197-198 | a match with the directory marker at index i: the marker there, the suffix at the very end, and no line terminator before the marker or between marker and suffix |
| OverwriteGuard.FullMatch | src/main/java/org/wso2/maven/plugins/JavaMSF4JServerCodegen.java:197-198 | `matches` of ".*" + marker + ".*" + suffix: the whole string matches at some marker position |
| OverwriteGuard.ImplMatch | src/main/java/org/wso2/maven/plugins/JavaMSF4JServerCodegen.java:197 | the filename matches the pattern for service implementation classes: marker "/impl/", suffix "ServiceImpl.java" |
| OverwriteGuard.FactoryMatch | src/main/java/org/wso2/maven/plugins/JavaMSF4JServerCodegen.java:198 | the filename matches the pattern for service factory classes: marker "/factories/", suffix "ServiceFactory.java" |
| OverwriteGuard.ShouldOverwrite | src/main/java/org/wso2/maven/plugins/JavaMSF4JServerCodegen.java:195-201 | a matching file is never overwritten; true implies the framework allows it; other files are left entirely to the framework |
| OverwriteGuard.PatternAccepts | src/main/java/org/wso2/maven/plugins/JavaMSF4JServerCodegen.java:197-198 | every text + directory marker + text + suffix, without line terminators in the texts, matches the whole pattern |
| OverwriteGuard.PatternOnlyAccepts | src/main/java/org/wso2/maven/plugins/JavaMSF4JServerCodegen.java:197-198 | a matching filename ends with the suffix and splits as text + marker + text + suffix, with no line terminator in either text: the converse of PatternAccepts |
| OverwriteGuard.SuffixRequired | src/main/java/org/wso2/maven/plugins/JavaMSF4JServerCodegen.java:197-198 | a filename not ending with the suffix never matches |
| OverwriteGuard.SuffixMismatch | src/main/java/org/wso2/maven/plugins/JavaMSF4JServerCodegen.java:197-198 | one differing character among the last ones of the suffix rules out the match |
| OverwriteGuard.MarkerStartRequired | src/main/java/org/wso2/maven/plugins/JavaMSF4JServerCodegen.java:197-198 | with no occurrence of the marker's first character where the marker could start, the file does not match |
| OverwriteGuard.ImplExample | src/main/java/org/wso2/maven/plugins/JavaMSF4JServerCodegen.java:197 | "src/api" + "/impl/" + "Pet" + "ServiceImpl.java" matches the implementation pattern |
| OverwriteGuard.FactoryExample | src/main/java/org/wso2/maven/plugins/JavaMSF4JServerCodegen.java:198 | "src/api" + "/factories/" + "Pet" + "ServiceFactory.java" matches the factory pattern |
| OverwriteGuard.LeadingSlashRequired | src/main/java/org/wso2/maven/plugins/JavaMSF4JServerCodegen.java:197 | "impl/PetServiceImpl.java" does not match: the marker needs its leading '/' |
| OverwriteGuard.TrailingTextRejected | src/main/java/org/wso2/maven/plugins/JavaMSF4JServerCodegen.java:197 | "a/impl/PetServiceImpl.java.bak" does not match: the match covers the whole string |
| OverwriteGuard.LiteralDotRequired | src/main/java/org/wso2/maven/plugins/JavaMSF4JServerCodegen.java:197 | "a/impl/PetServiceImplXjava" does not match: the escaped dot is literal |
| OverwriteGuard.OrdinaryFileExample | src/main/java/org/wso2/maven/plugins/JavaMSF4JServerCodegen.java:199-200 | "src/main/java/api/PetService.java" is overwritten when the framework allows it |
| ModelProcessing.ToModelName | src/main/java/org/wso2/maven/plugins/JavaMSF4JServerCodegen.java:161-164 | the model name starts with the schema name, ends in "DTO" and is 3 characters longer |
| ModelProcessing.SchemaName | src/main/java/org/wso2/maven/plugins/JavaMSF4JServerCodegen.java:163 | inverse of the naming rule: defined exactly on names ending in "DTO", giving the prefix before it |
| ModelProcessing.SchemaNameOfModelName | src/main/java/org/wso2/maven/plugins/JavaMSF4JServerCodegen.java:163 | round trip: the schema name of ToModelName(n) is n |
| ModelProcessing.ToModelNameInjective | src/main/java/org/wso2/maven/plugins/JavaMSF4JServerCodegen.java:163 | distinct schema names give distinct model names |
| ModelProcessing.NormalizeExample | src/main/java/org/wso2/maven/plugins/JavaMSF4JServerCodegen.java:93-95 | the result is never "null"; it is the input or null; it is null exactly when the input was null or "null" |
| ModelProcessing.NormalizeExampleIdempotent | src/main/java/org/wso2/maven/plugins/JavaMSF4JServerCodegen.java:93-95 | normalising twice equals normalising once |
| ModelProcessing.PostProcessModelProperty | src/main/java/org/wso2/maven/plugins/JavaMSF4JServerCodegen.java:90-99 | the example becomes NormalizeExample of the old one; the imports become the old set plus "SerializedName" |
| ModelProcessing.PostProcessTwice | src/main/java/org/wso2/maven/plugins/JavaMSF4JServerCodegen.java:90-99 | two calls leave the same state as one |

## Findings

| source | as written | input that shows it | evidently intended | confidence | as-written member | corrected member |
|---|---|---|---|---|---|---|
| src/main/java/org/wso2/maven/plugins/JavaMSF4JServerCodegen.java:178 | `basePath == ""` compares references, so an empty base path that is not the interned literal takes the else branch | resource path "/": its base path `"/".substring(1)` is a newly allocated empty string on JDK 8, so the operation is filed under the key "", and an operation path "/" is rewritten to "" with `subresourceOperation` false | an empty base path gives the key "default" and leaves the path and flag alone | not executed; on a JVM whose `substring` returns the interned "" for an empty result, the code behaves as intended | OperationGrouping.AsWrittenRootHasEmptyKey | OperationGrouping.GroupKey |

## Left out

- The `tag` and `operation` arguments of `addOperationToGroup` are unused by the source and are not parameters of the model.
- OperationGrouping.OperationGroups.AddOperationToGroup: the groups are stored as sequence values in the map, so the identity and aliasing of the Java `ArrayList` objects are not modelled. `co.path` is a non-null string. A key mapped to `null` is treated like an absent key.
- OperationGrouping.GroupAllPartitions: operations stand for their processing positions. The lemma does not cover the same `CodegenOperation` object being filed twice.
- OverwriteGuard.ShouldOverwrite: the framework's `super.shouldOverwrite` is an arbitrary function parameter. Only the two fixed patterns are modelled, not a general regular-expression engine. Dafny characters are Unicode code points. A supplementary character, which is two UTF-16 units in Java, is one character here. Strings with unpaired surrogates are not represented. Neither changes a result, because `.` matches one code point and every cut is at an ASCII character.
- ModelProcessing.PostProcessModelProperty: the framework's `super.postProcessModelProperty`, which runs first, is treated as doing nothing.
- The constructor, `getName` and `getHelp` (lines 46-88) register templates, library options and command-line options. They are configuration with no behaviour to state.
- `processOpts` (lines 101-136) adds supporting files to the framework's output lists. This is output-pipeline wiring driven by framework fields.
- `postProcessModelsEnum` (lines 138-158) walks untyped framework maps. It depends on the framework's `importMapping`, which is not part of this model.
