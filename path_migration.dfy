/**
 * Rewriting a Jekyll source path into the matching Hugo path: every
 * separator-delimited segment that names one of Jekyll's special
 * directories is replaced by the Hugo directory that takes its place.
 */
module PathMigration {
  import opened GoStrings

  /** The path separator; fixed to one character. */
  const Sep: char := '/'

  /** Jekyll directory names and the Hugo sub-paths that replace them. */
  const SpecialDirs: map<string, string> := map[
    "_sass" := "assets" + [Sep] + "scss",
    "_data" := "data",
    "_layouts" := "layouts" + [Sep] + "_default",
    "_includes" := "layouts" + [Sep] + "partials",
    "pages" := "content",
    "assets" := "static",
    "js" := "assets" + [Sep] + "js",
    "css" := "assets" + [Sep] + "css"
  ]

  /** Every key of the table is one non-empty segment, so it can match a
      piece of a split path; every value is a non-empty relative path that
      neither starts nor ends with the separator. */
  lemma SpecialDirsShape(key: string)
    requires key in SpecialDirs
    ensures key != "" && Sep !in key
    ensures SpecialDirs[key] != "" && SpecialDirs[key][0] != Sep && SpecialDirs[key][|SpecialDirs[key]| - 1] != Sep
  {
  }

  /** One segment after lookup: its table value if it is a key, itself otherwise. */
  function MapSegment(segment: string): (r: string)
    ensures r == segment <==> segment !in SpecialDirs
  {
    if segment in SpecialDirs then SpecialDirs[segment] else segment
  }

  function MapSegments(segments: seq<string>): seq<string>
  {
    seq(|segments|, i requires 0 <= i < |segments| => MapSegment(segments[i]))
  }

  /** The migrated path: split on the separator, replace each segment by
      table lookup, rejoin with one separator between neighbours. */
  function MigratedPath(path: string): (r: string)
    ensures Sep !in path ==> r == MapSegment(path)
  {
    Join(MapSegments(Split(path, Sep)), [Sep])
  }

  /** The builder loop: write each segment's replacement, and a separator
      after every segment but the last. */
  method MigratePath(path: string) returns (migrated: string)
    ensures migrated == MigratedPath(path)
  {
    var splitPath := Split(path, Sep);
    ghost var mapped := MapSegments(splitPath);
    migrated := "";
    for i := 0 to |splitPath|
      invariant i < |splitPath| ==> migrated == Join(mapped[..i] + [""], [Sep])
      invariant i == |splitPath| ==> migrated == Join(mapped, [Sep])
    {
      var p := splitPath[i];
      if p in SpecialDirs {
        migrated := migrated + SpecialDirs[p];
      } else {
        migrated := migrated + p;
      }
      JoinStep(mapped, i, [Sep]);
      if i < |splitPath| - 1 {
        migrated := migrated + [Sep];
      } else {
        assert mapped[..i + 1] == mapped;
      }
    }
  }

  /** One builder step: writing part `i` after the separator-terminated
      join of the parts before it, then possibly a separator. */
  lemma JoinStep(parts: seq<string>, i: nat, sep: string)
    requires i < |parts|
    ensures Join(parts[..i] + [""], sep) + parts[i] == Join(parts[..i + 1], sep)
    ensures Join(parts[..i + 1], sep) + sep == Join(parts[..i + 1] + [""], sep)
  {
    var before, upTo := parts[..i], parts[..i + 1];
    assert upTo == before + [parts[i]];
    assert Join(before + [""], sep) + parts[i] == Join(upTo, sep) by {
      JoinSnoc(before, "", sep);
      JoinSnoc(before, parts[i], sep);
      if before != [] {
        assert Join(before, sep) + sep + "" == Join(before, sep) + sep;
      }
    }
    assert Join(upTo, sep) + sep == Join(upTo + [""], sep) by {
      JoinSnoc(upTo, "", sep);
      assert Join(upTo, sep) + sep + "" == Join(upTo, sep) + sep;
    }
  }

  /** Joining one more part appends the separator and that part. */
  lemma {:induction false} JoinSnoc(parts: seq<string>, last: string, sep: string)
    ensures Join(parts + [last], sep) == if parts == [] then last else Join(parts, sep) + sep + last
  {
    if |parts| > 1 {
      assert (parts + [last])[1..] == parts[1..] + [last];
      JoinSnoc(parts[1..], last, sep);
    } else if |parts| == 1 {
      assert (parts + [last])[1..] == [last];
    }
  }

  /** The segments of the migrated path are the segments of each input
      segment's replacement, in input order: a segment that is not a key
      stays one segment, a key becomes the segments of its table value. */
  lemma MigratedPathSegments(path: string)
    ensures Split(MigratedPath(path), Sep) == SplitEach(MapSegments(Split(path, Sep)), Sep)
  {
    SplitJoin(MapSegments(Split(path, Sep)), Sep);
  }

  /** A path none of whose segments is a key comes back unchanged. */
  lemma MigratedPathUnchanged(path: string)
    requires forall i :: 0 <= i < |Split(path, Sep)| ==> Split(path, Sep)[i] !in SpecialDirs
    ensures MigratedPath(path) == path
  {
    var segments := Split(path, Sep);
    assert MapSegments(segments) == segments;
    JoinSplit(path, Sep);
  }

  /** No table value starts with the segment it replaces, so the first
      segment of a replacement always differs from the key. */
  lemma ReplacementHeadDiffers(key: string)
    requires key in SpecialDirs
    ensures Split(SpecialDirs[key], Sep)[0] != key
  {
    var value := SpecialDirs[key];
    if key == "_sass" {
      assert value == "assets" + [Sep] + "scss";
      HeadDiffers(key, "assets", "scss");
    } else if key == "_layouts" {
      assert value == "layouts" + [Sep] + "_default";
      HeadDiffers(key, "layouts", "_default");
    } else if key == "_includes" {
      assert value == "layouts" + [Sep] + "partials";
      HeadDiffers(key, "layouts", "partials");
    } else if key == "js" {
      assert value == "assets" + [Sep] + "js";
      HeadDiffers(key, "assets", "js");
    } else if key == "css" {
      assert value == "assets" + [Sep] + "css";
      HeadDiffers(key, "assets", "css");
    } else {
      assert value == "data" || value == "content" || value == "static";
      assert Sep !in value;
      assert value != key;
    }
  }

  lemma HeadDiffers(key: string, first: string, rest: string)
    requires Sep !in first && first != key
    ensures Split(first + [Sep] + rest, Sep)[0] != key
  {
    SplitConcat(first, rest, Sep);
  }

  /** Migrating separator-free segments changes their join as soon as one
      segment is a key. */
  lemma {:induction false} KeySegmentChangesJoin(segments: seq<string>)
    requires |segments| > 0
    requires forall i :: 0 <= i < |segments| ==> Sep !in segments[i]
    requires exists i :: 0 <= i < |segments| && segments[i] in SpecialDirs
    ensures Join(MapSegments(segments), [Sep]) != Join(segments, [Sep])
  {
    var head := segments[0];
    var mapped := MapSegments(segments);
    if head in SpecialDirs {
      HeadKeyChangesJoin(segments);
    } else {
      var k :| 0 <= k < |segments| && segments[k] in SpecialDirs;
      var tail := segments[1..];
      assert tail[k - 1] in SpecialDirs;
      KeySegmentChangesJoin(tail);
      assert mapped == [head] + MapSegments(tail);
      assert segments == [head] + tail;
      JoinCons(head, tail, [Sep]);
      JoinCons(head, MapSegments(tail), [Sep]);
      PrefixCancel(head + [Sep], Join(tail, [Sep]), Join(MapSegments(tail), [Sep]));
    }
  }

  /** The first segment differs after migration when it is a key: the
      join's first piece is the key before and the first piece of its
      replacement after. */
  lemma HeadKeyChangesJoin(segments: seq<string>)
    requires |segments| > 0 && segments[0] in SpecialDirs
    requires forall i :: 0 <= i < |segments| ==> Sep !in segments[i]
    ensures Join(MapSegments(segments), [Sep]) != Join(segments, [Sep])
  {
    var head, mapped := segments[0], MapSegments(segments);
    assert Split(Join(segments, [Sep]), Sep)[0] == head by {
      SplitJoin(segments, Sep);
    }
    assert Split(Join(mapped, [Sep]), Sep)[0] == Split(SpecialDirs[head], Sep)[0] by {
      SplitJoin(mapped, Sep);
    }
    ReplacementHeadDiffers(head);
  }

  /** Texts with a common prefix are equal only if the rests are. */
  lemma PrefixCancel(prefix: string, x: string, y: string)
    ensures prefix + x == prefix + y ==> x == y
  {
    if prefix + x == prefix + y {
      assert x == (prefix + x)[|prefix|..];
      assert y == (prefix + y)[|prefix|..];
    }
  }

  /** A path is a fixed point of migration exactly when none of its
      segments is a key. */
  lemma MigratedPathFixedPoint(path: string)
    ensures MigratedPath(path) == path <==>
      forall i :: 0 <= i < |Split(path, Sep)| ==> Split(path, Sep)[i] !in SpecialDirs
  {
    var segments := Split(path, Sep);
    if forall i :: 0 <= i < |segments| ==> segments[i] !in SpecialDirs {
      MigratedPathUnchanged(path);
    } else {
      JoinSplit(path, Sep);
      KeySegmentChangesJoin(segments);
    }
  }

  /** Migration works segment by segment: the first segment's replacement,
      one separator, then the migrated rest, whatever the rest holds. */
  lemma MigratedPathCons(first: string, rest: string)
    requires Sep !in first
    ensures MigratedPath(first + [Sep] + rest) == MapSegment(first) + [Sep] + MigratedPath(rest)
  {
    var restSegments := Split(rest, Sep);
    SplitConcat(first, rest, Sep);
    MapSegmentsCons(first, restSegments);
    JoinCons(MapSegment(first), MapSegments(restSegments), [Sep]);
  }

  lemma MapSegmentsCons(first: string, segments: seq<string>)
    requires |segments| > 0
    ensures MapSegments([first] + segments) == [MapSegment(first)] + MapSegments(segments)
    ensures MapSegments(segments) != []
  {
  }

  /** A segment whose length no key has, or that differs from the one key
      of its length, is not a key. */
  lemma NotAKey(segment: string)
    requires |segment| != 2 && |segment| != 3 && |segment| != 5 && |segment| != 8 && |segment| != 9
    requires |segment| == 6 ==> segment != "assets"
    ensures segment !in SpecialDirs && MapSegment(segment) == segment
  {
  }

  /** The empty path is one empty segment and migrates to itself. */
  lemma EmptyPathExample()
    ensures MigratedPath("") == ""
  {
    MigratedPathUnchanged("");
  }

  /** A key segment is rewritten as a whole and the file name after it is
      left alone: `_sass/theme.scss` becomes `assets/scss/theme.scss`. */
  lemma SassPathExample(name: string)
    requires Sep !in name && name !in SpecialDirs
    ensures MigratedPath("_sass" + [Sep] + name) == "assets" + [Sep] + "scss" + [Sep] + name
  {
    assert MapSegment("_sass") == "assets" + [Sep] + "scss";
    MigratedPathCons("_sass", name);
  }

  /** Names that only contain or extend a key are not rewritten. */
  lemma NoPartialMatchExample()
    ensures MigratedPath("my_sass/_sass2") == "my_sass/_sass2"
  {
    assert "my_sass/_sass2" == "my_sass" + [Sep] + "_sass2";
    MigratedPathCons("my_sass", "_sass2");
    NotAKey("my_sass");
    assert "_sass2" != "assets" by { assert "_sass2"[0] != "assets"[0]; }
    NotAKey("_sass2");
  }

  /** Migration is not idempotent: `assets` is a key and also the first
      segment of the `_sass` replacement, so a second pass turns
      `assets/scss/x` into `static/scss/x`. */
  lemma MigratedPathNotIdempotent(name: string)
    requires Sep !in name && name !in SpecialDirs
    ensures MigratedPath("_sass" + [Sep] + name) == "assets" + [Sep] + "scss" + [Sep] + name
    ensures MigratedPath(MigratedPath("_sass" + [Sep] + name)) == "static" + [Sep] + "scss" + [Sep] + name
  {
    SassPathExample(name);
    SecondPass(name);
  }

  /** The second pass: the leading `assets` is a key again. */
  lemma SecondPass(name: string)
    requires Sep !in name && name !in SpecialDirs
    ensures MigratedPath("assets" + [Sep] + "scss" + [Sep] + name) == "static" + [Sep] + "scss" + [Sep] + name
  {
    var tail := "scss" + [Sep] + name;
    assert MigratedPath("assets" + [Sep] + tail) == "static" + [Sep] + tail by {
      ScssUnchanged(name);
      MigratedPathCons("assets", tail);
      assert MapSegment("assets") == "static";
    }
    assert "assets" + [Sep] + tail == "assets" + [Sep] + "scss" + [Sep] + name;
    assert "static" + [Sep] + tail == "static" + [Sep] + "scss" + [Sep] + name;
  }

  /** `scss/<name>` holds no key segment and migrates to itself. */
  lemma ScssUnchanged(name: string)
    requires Sep !in name && name !in SpecialDirs
    ensures MigratedPath("scss" + [Sep] + name) == "scss" + [Sep] + name
  {
    NotAKey("scss");
    MigratedPathCons("scss", name);
  }
}
