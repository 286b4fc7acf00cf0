/**
 * Operation grouping of the MSF4J server generator: every API operation is
 * filed under the first segment of its resource path (its group key), and
 * its own path is rewritten relative to that group, so that each group
 * becomes one generated service class.
 */
module OperationGrouping {
  import opened JavaStrings

  /** The group an operation falls into when its resource path has no first segment. */
  const DefaultGroup: string := "default"

  /** The resource path with exactly one leading '/' removed, when there is one. */
  function StripLeadingSlash(resourcePath: string): (s: string)
    ensures resourcePath == if StartsWith(resourcePath, "/") then "/" + s else s
  {
    if StartsWith(resourcePath, "/") then resourcePath[1..] else resourcePath
  }

  /**
   * The group key candidate: the stripped resource path cut at its first '/',
   * except that a '/' at index 0 of the stripped path does not cut it.
   */
  function BasePath(resourcePath: string): (b: string)
    // b is a prefix of the stripped path ...
    ensures StartsWith(StripLeadingSlash(resourcePath), b)
    // ... that is either all of it, or a non-empty part ending just before a '/' ...
    ensures b == StripLeadingSlash(resourcePath)
         || (b != [] && StripLeadingSlash(resourcePath)[|b|] == '/' && '/' !in b)
    // ... and keeps a '/' only when the stripped path begins with one
    ensures '/' in b ==> b == StripLeadingSlash(resourcePath) && b[0] == '/'
  {
    var s := StripLeadingSlash(resourcePath);
    var pos := IndexOf(s, '/');
    if pos > 0 then s[..pos] else s
  }

  /** The first path segment of `s`: everything before its first '/'. */
  function Segment(s: string): string
  {
    if s == [] || s[0] == '/' then [] else [s[0]] + Segment(s[1..])
  }

  lemma {:induction false} SegmentUpToSlash(s: string)
    ensures Segment(s) == if '/' in s then s[..IndexOf(s, '/')] else s
  {
    if s != [] && s[0] != '/' {
      SegmentUpToSlash(s[1..]);
      assert s == [s[0]] + s[1..];
      if '/' in s {
        assert '/' in s[1..];
        assert s[..IndexOf(s, '/')] == [s[0]] + s[1..][..IndexOf(s[1..], '/')];
      }
    }
  }

  /**
   * The base path is the first segment of the stripped path, except when the
   * stripped path itself begins with '/', which leaves it whole.
   */
  lemma BasePathIsFirstSegment(resourcePath: string)
    ensures var s := StripLeadingSlash(resourcePath);
            BasePath(resourcePath) == if s != [] && s[0] == '/' then s else Segment(s)
  {
    SegmentUpToSlash(StripLeadingSlash(resourcePath));
  }

  /** The base path is empty exactly for the resource paths "" and "/". */
  lemma BasePathEmptyIff(resourcePath: string)
    ensures BasePath(resourcePath) == [] <==> resourcePath == [] || resourcePath == "/"
  {
    var s := StripLeadingSlash(resourcePath);
    if resourcePath == "/" {
      assert s == [];
    } else if resourcePath != [] {
      assert s != [] by {
        if StartsWith(resourcePath, "/") {
          assert |resourcePath| >= 2;
        }
      }
      var pos := IndexOf(s, '/');
      if pos > 0 {
        assert BasePath(resourcePath) == s[..pos];
      } else {
        assert BasePath(resourcePath) == s;
      }
    }
  }

  /**
   * The group key of an operation: its base path, or "default" when that is
   * empty. The source tests emptiness with the reference comparison
   * `basePath == ""`; this is the evident intent, string emptiness (see
   * GroupKeyAsWritten for what the comparison does when it fails).
   */
  function GroupKey(resourcePath: string): (key: string)
    ensures key != []
    ensures key == BasePath(resourcePath) || (BasePath(resourcePath) == [] && key == DefaultGroup)
  {
    var b := BasePath(resourcePath);
    if |b| == 0 then DefaultGroup else b
  }

  /** A resource path with no '/' at all is its own group key. */
  lemma {:induction false} SlashFreeKey(resourcePath: string)
    requires resourcePath != [] && '/' !in resourcePath
    ensures GroupKey(resourcePath) == resourcePath
  {
    assert !StartsWith(resourcePath, "/") by {
      assert resourcePath[0] != '/';
    }
  }

  /**
   * The group key as the source computes it, `emptyIsLiteral` standing for
   * the outcome of the reference comparison `basePath == ""` when the base
   * path is empty: it holds only when the JVM hands back the interned empty
   * literal for that string.
   */
  function GroupKeyAsWritten(resourcePath: string, emptyIsLiteral: bool): (key: string)
    ensures key == DefaultGroup || key == BasePath(resourcePath)
  {
    var b := BasePath(resourcePath);
    if b == [] && emptyIsLiteral then DefaultGroup else b
  }

  /** The two computations differ exactly when the base path is empty and the identity test fails. */
  lemma AsWrittenDiffers(resourcePath: string, emptyIsLiteral: bool)
    ensures GroupKeyAsWritten(resourcePath, emptyIsLiteral) != GroupKey(resourcePath)
        <==> BasePath(resourcePath) == [] && !emptyIsLiteral
  {
  }

  /**
   * The root resource path "/", whose base path `"/".substring(1)` is a newly
   * allocated empty string, is filed under the empty group key, and the else
   * branch then strips the prefix "/" + "" from an operation path "/", leaving
   * it empty (the intended model keeps "/" and the old subresource flag).
   */
  lemma AsWrittenRootHasEmptyKey()
    ensures GroupKeyAsWritten("/", false) == []
    ensures RewritePath(GroupKeyAsWritten("/", false), "/") == []
    ensures GroupKey("/") == DefaultGroup
  {
    BasePathEmptyIff("/");
  }

  /**
   * The operation's path after the rewrite for group `key`: the raw prefix
   * "/" + key is removed when the path starts with it.
   */
  function RewritePath(key: string, path: string): (p: string)
    ensures EndsWith(path, p)
    ensures StartsWith(path, "/" + key) <==> path == "/" + key + p
    ensures !StartsWith(path, "/" + key) ==> p == path
  {
    var prefix := "/" + key;
    if StartsWith(path, prefix) then path[|prefix|..] else path
  }

  /** The list of operations filed under `key`, empty when the key is absent. */
  function GroupOf<T>(groups: map<string, seq<T>>, key: string): (ops: seq<T>)
    ensures key in groups ==> ops == groups[key]
    ensures key !in groups ==> ops == []
  {
    if key in groups then groups[key] else []
  }

  /**
   * The group map after `x` is appended to group `key`, the group being
   * created when it is absent.
   */
  function AppendToGroup<T>(groups: map<string, seq<T>>, key: string, x: T): (r: map<string, seq<T>>)
    ensures r.Keys == groups.Keys + {key}
    ensures r[key] == GroupOf(groups, key) + [x]
    ensures forall k :: k in groups && k != key ==> r[k] == groups[k]
  {
    groups[key := GroupOf(groups, key) + [x]]
  }

  /** One generated operation, with the three fields the grouping updates in place. */
  class CodegenOperation {
    var path: string
    var subresourceOperation: bool
    var baseName: string

    constructor (path: string, subresourceOperation: bool, baseName: string)
      ensures this.path == path
      ensures this.subresourceOperation == subresourceOperation
      ensures this.baseName == baseName
    {
      this.path := path;
      this.subresourceOperation := subresourceOperation;
      this.baseName := baseName;
    }
  }

  /** The caller-owned map from group key to the operations filed under it, in filing order. */
  class OperationGroups {
    var operations: map<string, seq<CodegenOperation>>

    constructor ()
      ensures operations == map[]
    {
      operations := map[];
    }

    /**
     * Files `co` under the group key of `resourcePath`. For a non-empty base
     * path, `co.path` loses the prefix "/" + key and `co.subresourceOperation`
     * records whether anything of the path remains; for an empty one both are
     * left alone and the key is "default".
     */
    method AddOperationToGroup(resourcePath: string, co: CodegenOperation)
      modifies this, co
      ensures operations == AppendToGroup(old(operations), GroupKey(resourcePath), co)
      ensures co.baseName == GroupKey(resourcePath)
      ensures BasePath(resourcePath) == [] ==>
                co.path == old(co.path) && co.subresourceOperation == old(co.subresourceOperation)
      ensures BasePath(resourcePath) != [] ==>
                co.path == RewritePath(GroupKey(resourcePath), old(co.path))
                && co.subresourceOperation == (co.path != [])
    {
      var basePath := resourcePath;
      if StartsWith(basePath, "/") {
        basePath := basePath[1..];
      }
      var pos := IndexOf(basePath, '/');
      if pos > 0 {
        basePath := basePath[..pos];
      }
      assert basePath == BasePath(resourcePath);
      ghost var oldOperations := operations;

      if |basePath| == 0 {
        basePath := DefaultGroup;
      } else {
        if StartsWith(co.path, "/" + basePath) {
          co.path := co.path[|"/" + basePath|..];
        }
        co.subresourceOperation := |co.path| != 0;
      }
      var opList: seq<CodegenOperation>;
      if basePath in operations {
        opList := operations[basePath];
      } else {
        opList := [];
        operations := operations[basePath := opList];
      }
      assert opList == GroupOf(oldOperations, basePath);
      opList := opList + [co];
      operations := operations[basePath := opList];
      assert operations == oldOperations[basePath := opList];
      co.baseName := basePath;
    }
  }

  /** Strictly increasing: no index is repeated and filing order is kept. */
  ghost predicate Increasing(xs: seq<nat>)
  {
    forall a, b :: 0 <= a < b < |xs| ==> xs[a] < xs[b]
  }

  /** Every position of `resourcePaths` is filed under its group key. */
  ghost predicate AllFiled(groups: map<string, seq<nat>>, resourcePaths: seq<string>)
  {
    forall i :: 0 <= i < |resourcePaths| ==>
      GroupKey(resourcePaths[i]) in groups && i in groups[GroupKey(resourcePaths[i])]
  }

  /** Whatever is filed is a position of `resourcePaths` lying under its own group key. */
  ghost predicate FiledUnderOwnKey(groups: map<string, seq<nat>>, resourcePaths: seq<string>)
  {
    forall k, x {:trigger x in groups[k]} :: k in groups && x in groups[k] ==>
      x < |resourcePaths| && GroupKey(resourcePaths[x]) == k
  }

  /** No group key is empty, and each group lists its positions in increasing order. */
  ghost predicate OrderedGroups(groups: map<string, seq<nat>>)
  {
    forall k :: k in groups ==> k != [] && Increasing(groups[k])
  }

  /**
   * `groups` files every position of `resourcePaths` once, under its own
   * group key and in processing order, and holds nothing else.
   */
  ghost predicate Partitioned(groups: map<string, seq<nat>>, resourcePaths: seq<string>)
  {
    AllFiled(groups, resourcePaths) && FiledUnderOwnKey(groups, resourcePaths) && OrderedGroups(groups)
  }

  /**
   * The groups after filing the operations at positions 0, 1, ... of
   * `resourcePaths` one call after another, each operation standing for its
   * position.
   */
  ghost function GroupAll(resourcePaths: seq<string>): map<string, seq<nat>>
  {
    if resourcePaths == [] then map[]
    else
      var n := |resourcePaths| - 1;
      AppendToGroup(GroupAll(resourcePaths[..n]), GroupKey(resourcePaths[n]), n)
  }

  /** Filing one more operation keeps the groups a partition of the operations seen so far. */
  lemma FilingPreservesPartition(groups: map<string, seq<nat>>, front: seq<string>, resourcePath: string,
                                 r: map<string, seq<nat>>, paths: seq<string>)
    requires Partitioned(groups, front)
    requires r == AppendToGroup(groups, GroupKey(resourcePath), |front|) && paths == front + [resourcePath]
    ensures Partitioned(r, paths)
  {
    var n := |front|;
    var key := GroupKey(resourcePath);
    assert r[key] == GroupOf(groups, key) + [n];
    assert AllFiled(groups, front) && FiledUnderOwnKey(groups, front) && OrderedGroups(groups);
    forall i | 0 <= i < |paths|
      ensures GroupKey(paths[i]) in r && i in r[GroupKey(paths[i])]
    {
      if i < n {
        assert paths[i] == front[i];
        var k := GroupKey(front[i]);
        assert i in groups[k];
        if k == key {
          assert r[k] == groups[k] + [n];
        } else {
          assert r[k] == groups[k];
        }
      } else {
        assert paths[i] == resourcePath;
      }
    }
    forall k, x | k in r && x in r[k]
      ensures x < |paths| && GroupKey(paths[x]) == k
    {
      if k == key && x == n {
        assert paths[x] == resourcePath;
      } else {
        assert k in groups && x in groups[k] by {
          if k == key {
            assert x in GroupOf(groups, key);
          }
        }
        assert paths[x] == front[x];
      }
    }
    forall k | k in r
      ensures k != [] && Increasing(r[k])
    {
      if k == key {
        var earlier := GroupOf(groups, key);
        assert forall a :: 0 <= a < |earlier| ==> earlier[a] < n by {
          forall a | 0 <= a < |earlier| ensures earlier[a] < n {
            assert key in groups && earlier == groups[key];
            assert earlier[a] in groups[key];
            assert earlier[a] < |front|;
          }
        }
      } else {
        assert r[k] == groups[k];
      }
    }
    assert AllFiled(r, paths);
    assert FiledUnderOwnKey(r, paths);
    assert OrderedGroups(r);
  }

  /** Every operation ends up in exactly one group, once, in processing order. */
  lemma {:induction false} GroupAllPartitions(resourcePaths: seq<string>)
    ensures Partitioned(GroupAll(resourcePaths), resourcePaths)
  {
    if resourcePaths != [] {
      var n := |resourcePaths| - 1;
      var front := resourcePaths[..n];
      GroupAllPartitions(front);
      assert front + [resourcePaths[n]] == resourcePaths;
      FilingPreservesPartition(GroupAll(front), front, resourcePaths[n], GroupAll(resourcePaths), resourcePaths);
    }
  }

  /**
   * A resource path made of a first segment and a continuation, with or
   * without a leading '/', is filed under that segment.
   */
  lemma FirstSegmentIsKey(segment: string, rest: string, leadingSlash: bool)
    requires segment != [] && '/' !in segment
    ensures GroupKey((if leadingSlash then "/" else "") + segment + "/" + rest) == segment
  {
    var r := (if leadingSlash then "/" else "") + segment + "/" + rest;
    var s := segment + "/" + rest;
    if leadingSlash {
      assert r == "/" + s;
      assert StartsWith(r, "/");
    } else {
      assert r == s;
      assert !StartsWith(r, "/") by { assert r[0] == segment[0]; }
    }
    assert StripLeadingSlash(r) == s;
    assert s[..|segment|] == segment;
    IndexOfIsFirst(s, '/', |segment|);
  }

  /** A path that begins with "/" + key keeps exactly what follows. */
  lemma RewriteStripsKey(key: string, continuation: string)
    ensures RewritePath(key, "/" + key + continuation) == continuation
  {
    var path := "/" + key + continuation;
    assert path[..|"/" + key|] == "/" + key;
  }

  /** "/pets/{id}" is filed under "pets". */
  lemma PetsExample()
    ensures GroupKey("/pets/{id}") == "pets"
  {
    FirstSegmentIsKey("pets", "{id}", true);
    assert "/" + "pets" + "/" + "{id}" == "/pets/{id}";
  }

  /** Under the key "pets", the path "/pets/{id}" keeps "/{id}", so it is a subresource operation. */
  lemma PetsPathExample()
    ensures RewritePath("pets", "/pets/{id}") == "/{id}"
  {
    RewriteStripsKey("pets", "/{id}");
    assert "/" + "pets" + "/{id}" == "/pets/{id}";
  }

  /** "store/inventory", without a leading '/', is filed under "store". */
  lemma StoreExample()
    ensures GroupKey("store/inventory") == "store"
  {
    FirstSegmentIsKey("store", "inventory", false);
    assert "" + "store" + "/" + "inventory" == "store/inventory";
  }

  /** Under the key "store", the path "/store/inventory" keeps "/inventory". */
  lemma StorePathExample()
    ensures RewritePath("store", "/store/inventory") == "/inventory"
  {
    RewriteStripsKey("store", "/inventory");
    assert "/" + "store" + "/inventory" == "/store/inventory";
  }

  /** The root and the empty resource path fall into the default group. */
  lemma RootExample()
    ensures GroupKey("/") == DefaultGroup && GroupKey("") == DefaultGroup
  {
    BasePathEmptyIff("/");
    BasePathEmptyIff("");
  }

  /** A '/' right after the stripped one does not cut the base path. */
  lemma DoubleSlashExample()
    ensures BasePath("//a/b") == "/a/b"
  {
    var r := "//a/b";
    assert StartsWith(r, "/");
    assert r[1..] == "/a/b";
    assert IndexOf("/a/b", '/') == 0;
  }

  /** The prefix is removed as raw text, not as a whole path segment. */
  lemma RawPrefixExample()
    ensures RewritePath("pet", "/petstore") == "store"
  {
    RewriteStripsKey("pet", "store");
    assert "/" + "pet" + "store" == "/petstore";
  }
}
