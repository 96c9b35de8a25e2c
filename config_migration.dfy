/**
 * Translating one line of a Jekyll `_config.yml` into a line of a Hugo
 * `hugo.toml`: the comment is cut off, the rest is split on every `:`,
 * lines without a value or with an omitted key are dropped, two keys are
 * renamed, and the fields are rejoined with `=`.
 */
module ConfigMigration {
  import opened GoStrings

  /** Keys whose lines never reach the Hugo configuration. */
  const OmitKeys: set<string> := {"markdown", "baseurl", "sass", "plugins", "defaults"}

  /** What every `.` in an `exclude` value becomes: two backslashes and a dot. */
  const EscapedDot: string := ['\\', '\\', '.']

  /** The outcome of translating one line: the Hugo line, or nothing. */
  datatype Translation = Keep(line: string) | Omit

  /** The line without its comment: everything before the first `#`. */
  function Payload(c: string): (r: string)
    ensures r <= c && '#' !in r
    ensures '#' !in c ==> r == c
    ensures '#' in c ==> c[|r|] == '#'
  {
    Cut(c, '#').0
  }

  /** The key-specific rewrite of the fields of a kept line: `exclude`
      becomes `ignoreFiles` with its value turned into an anchored pattern,
      `url` becomes `BaseURL`; every other key passes through. Only the
      first two fields can change. */
  function RewriteKey(config: seq<string>): (r: seq<string>)
    requires |config| >= 2
    ensures |r| == |config| && r[2..] == config[2..]
    ensures config[0] != "exclude" && config[0] != "url" ==> r == config
  {
    if config[0] == "exclude" then
      config[0 := "ignoreFiles"][1 := ReplaceAll(config[1], '.', EscapedDot) + "$"]
    else if config[0] == "url" then
      config[0 := "BaseURL"]
    else
      config
  }

  /** One configuration line to its Hugo line and the omit flag. A line is
      omitted exactly when its payload is empty, has no `:`, or has an
      omitted key before its first `:`; an omitted line carries no text. */
  function MigrateConfig(c: string): (r: (string, bool))
    ensures r.1 <==> (Payload(c) == "" || ':' !in Payload(c) || Split(Payload(c), ':')[0] in OmitKeys)
    ensures r.1 ==> r.0 == ""
  {
    var withoutComments := Cut(c, '#').0;
    var config := Split(withoutComments, ':');
    var omit := config[0] in OmitKeys;
    if omit || withoutComments == "" || |config| < 2 then ("", true)
    else (Join(RewriteKey(config), "="), omit)
  }

  /** The pair as a Translation: the flag is true exactly for Omit, which
      carries no text, and a kept line always comes with the flag false. */
  function TranslateLine(c: string): (t: Translation)
    ensures MigrateConfig(c) == if t.Keep? then (t.line, false) else ("", true)
  {
    var (line, omit) := MigrateConfig(c);
    if omit then Omit else Keep(line)
  }

  /** No omitted key holds a `:` or a `#`. */
  lemma OmitKeyChars(key: string)
    requires key in OmitKeys
    ensures ':' !in key && '#' !in key
  {
  }

  /** A line whose key is an omitted key is dropped, whatever its value. */
  lemma OmitKeyLine(key: string, value: string)
    requires key in OmitKeys
    ensures MigrateConfig(key + ":" + value) == ("", true)
  {
    OmitKeyChars(key);
    var rest := Cut(value, '#').0;
    assert key + ":" + value == (key + [':']) + value;
    CutPrefix(key + [':'], value, '#');
    SplitConcat(key, rest, ':');
    assert Payload(key + ":" + value) == key + [':'] + rest;
  }

  /** A kept line holds no `:` and no `#`. */
  lemma KeptLineShape(c: string)
    requires !MigrateConfig(c).1
    ensures ':' !in MigrateConfig(c).0 && '#' !in MigrateConfig(c).0
  {
    var payload := Payload(c);
    var config := Split(payload, ':');
    var fields := RewriteKey(config);
    SplitExcludes(payload, ':', '#');
    RewriteKeyExcludes(config);
    JoinExcludes(fields, "=", ':');
    JoinExcludes(fields, "=", '#');
  }

  /** Rewriting the key and the value brings in no `:` and no `#`. */
  lemma RewriteKeyExcludes(config: seq<string>)
    requires |config| >= 2
    requires forall i :: 0 <= i < |config| ==> ':' !in config[i] && '#' !in config[i]
    ensures forall i :: 0 <= i < |config| ==> ':' !in RewriteKey(config)[i] && '#' !in RewriteKey(config)[i]
  {
    var fields := RewriteKey(config);
    forall i | 0 <= i < |fields|
      ensures ':' !in fields[i] && '#' !in fields[i]
    {
      if i >= 2 {
        assert fields[i] == fields[2..][i - 2] == config[i];
      }
    }
  }

  /** For a kept line with any key but `exclude` and `url`, the output is
      the payload with every `:` turned into `=`. */
  lemma PlainKeyRewrite(c: string)
    requires !MigrateConfig(c).1
    requires Split(Payload(c), ':')[0] != "exclude" && Split(Payload(c), ':')[0] != "url"
    ensures MigrateConfig(c).0 == ReplaceAll(Payload(c), ':', "=")
  {
    ReplaceAllIsJoinSplit(Payload(c), ':', "=");
  }

  /** A line whose payload splits into a non-omitted key and at least one
      more field is kept as its rewritten fields joined with `=`. */
  lemma KeptFields(c: string, fields: seq<string>)
    requires fields == Split(Payload(c), ':')
    requires |fields| >= 2 && fields[0] !in OmitKeys
    ensures MigrateConfig(c) == (Join(RewriteKey(fields), "="), false)
  {
    assert Payload(c) != "";
  }

  /** A `url` line becomes a `BaseURL` line; every later `:` becomes `=`. */
  lemma UrlRewrite(c: string, rest: string)
    requires Payload(c) == "url:" + rest
    ensures MigrateConfig(c) == ("BaseURL=" + ReplaceAll(rest, ':', "="), false)
  {
    var fields := ["url"] + Split(rest, ':');
    UrlFields(rest);
    assert "url" !in OmitKeys;
    KeptFields(c, fields);
    UrlJoin(rest);
  }

  /** The fields of a `url` payload: the key, then the pieces of the rest. */
  lemma UrlFields(rest: string)
    ensures Split("url:" + rest, ':') == ["url"] + Split(rest, ':')
  {
    assert "url:" + rest == "url" + [':'] + rest;
    SplitConcat("url", rest, ':');
  }

  /** The joined rewrite of the fields of a `url` payload. */
  lemma UrlJoin(rest: string)
    ensures Join(RewriteKey(["url"] + Split(rest, ':')), "=") == "BaseURL=" + ReplaceAll(rest, ':', "=")
  {
    var restFields := Split(rest, ':');
    assert RewriteKey(["url"] + restFields) == ["BaseURL"] + restFields;
    JoinCons("BaseURL", restFields, "=");
    ReplaceAllIsJoinSplit(rest, ':', "=");
    assert "BaseURL=" == "BaseURL" + "=";
  }

  /** An `exclude` line becomes an `ignoreFiles` line: every `.` of its value
      is escaped, `$` is appended to the value, and any further `:`-fields
      follow with `:` turned into `=`. */
  lemma ExcludeRewrite(c: string, value: string, more: string)
    requires Payload(c) == "exclude:" + value + more
    requires ':' !in value
    requires more == "" || more[0] == ':'
    ensures MigrateConfig(c) ==
      ("ignoreFiles=" + ReplaceAll(value, '.', EscapedDot) + "$" + ReplaceAll(more, ':', "="), false)
  {
    var tailFields := if more == "" then [] else Split(more[1..], ':');
    ExcludeFields(value, more);
    assert "exclude" !in OmitKeys;
    KeptFields(c, ["exclude", value] + tailFields);
    ExcludeJoin(value, more, tailFields);
  }

  /** The fields of an `exclude` payload: the key, the value, then the
      fields after the next `:`. */
  lemma ExcludeFields(value: string, more: string)
    requires ':' !in value
    requires more == "" || more[0] == ':'
    ensures Split("exclude:" + value + more, ':') ==
      ["exclude", value] + (if more == "" then [] else Split(more[1..], ':'))
  {
    assert "exclude:" + value + more == "exclude" + [':'] + value + more;
    KeyValueFields("exclude", value, more);
  }

  /** The joined rewrite of the fields of an `exclude` payload. */
  lemma ExcludeJoin(value: string, more: string, tailFields: seq<string>)
    requires more == "" || more[0] == ':'
    requires tailFields == if more == "" then [] else Split(more[1..], ':')
    ensures Join(RewriteKey(["exclude", value] + tailFields), "=") ==
      "ignoreFiles=" + ReplaceAll(value, '.', EscapedDot) + "$" + ReplaceAll(more, ':', "=")
  {
    var escaped := ReplaceAll(value, '.', EscapedDot);
    var pattern := escaped + "$";
    var suffix := ReplaceAll(more, ':', "=");
    var rewritten := [pattern] + tailFields;
    assert RewriteKey(["exclude", value] + tailFields) == ["ignoreFiles"] + rewritten;
    assert Join(rewritten, "=") == pattern + suffix by {
      JoinCons(pattern, tailFields, "=");
      if more != "" {
        assert more == [':'] + more[1..];
        ReplaceAllIsJoinSplit(more[1..], ':', "=");
      }
    }
    assert Join(["ignoreFiles"] + rewritten, "=") == "ignoreFiles=" + Join(rewritten, "=") by {
      assert rewritten != [];
      JoinCons("ignoreFiles", rewritten, "=");
      assert "ignoreFiles" + "=" == "ignoreFiles=";
    }
    Associative("ignoreFiles=", escaped + "$", suffix);
    Associative("ignoreFiles=", escaped, "$");
  }

  /** The fields of a payload made of a key, `:`, a value and possibly
      more `:`-fields: the key, the value, then the fields after the next `:`. */
  lemma KeyValueFields(key: string, value: string, more: string)
    requires ':' !in key && ':' !in value
    requires more == "" || more[0] == ':'
    ensures Split(key + [':'] + value + more, ':') ==
      [key, value] + (if more == "" then [] else Split(more[1..], ':'))
  {
    var later := if more == "" then [] else Split(more[1..], ':');
    Associative(key + [':'], value, more);
    SplitConcat(key, value + more, ':');
    ValueFields(value, more);
    Associative([key], [value], later);
    assert [key] + [value] == [key, value];
  }

  /** The fields of a `:`-free value followed by nothing or by more fields. */
  lemma ValueFields(value: string, more: string)
    requires ':' !in value
    requires more == "" || more[0] == ':'
    ensures Split(value + more, ':') == [value] + (if more == "" then [] else Split(more[1..], ':'))
  {
    if more == "" {
      assert value + more == value;
    } else {
      assert value + more == value + [':'] + more[1..];
      SplitConcat(value, more[1..], ':');
    }
  }

  /** A value holding `:` is split too: in `url: http://host` the leading
      space of the value is kept and the colon of the scheme becomes `=`. */
  lemma UrlExample(scheme: string, host: string)
    requires ':' !in scheme && '#' !in scheme && ':' !in host && '#' !in host
    ensures MigrateConfig("url: " + scheme + "://" + host) == ("BaseURL= " + scheme + "=//" + host, false)
  {
    var c := "url: " + scheme + "://" + host;
    var rest := " " + scheme + "://" + host;
    assert Payload(c) == "url:" + rest by {
      assert c == "url:" + rest;
      assert '#' !in c;
    }
    UrlRewrite(c, rest);
    SchemeColonReplaced(scheme, host);
    BaseUrlLine(scheme, host);
  }

  lemma BaseUrlLine(scheme: string, host: string)
    ensures "BaseURL=" + (" " + scheme + "=//" + host) == "BaseURL= " + scheme + "=//" + host
  {
    assert "BaseURL= " == "BaseURL=" + " ";
    Associative("BaseURL=", " " + scheme + "=//", host);
    Associative("BaseURL=", " " + scheme, "=//");
    Associative("BaseURL=", " ", scheme);
  }

  /** The colon after a URL scheme becomes `=`; nothing else changes. */
  lemma SchemeColonReplaced(scheme: string, host: string)
    requires ':' !in scheme && ':' !in host
    ensures ReplaceAll(" " + scheme + "://" + host, ':', "=") == " " + scheme + "=//" + host
  {
    var spaced, slashed := " " + scheme, "//" + host;
    assert ':' !in spaced && ':' !in slashed;
    assert " " + scheme + "://" + host == spaced + [':'] + slashed by {
      assert "://" == [':'] + "//";
      Associative(spaced, [':'], "//");
      Associative(spaced + [':'], "//", host);
    }
    ReplaceOneColon(spaced, slashed);
    assert spaced + "=" + slashed == " " + scheme + "=//" + host by {
      assert "=//" == "=" + "//";
      Associative(spaced, "=", "//");
      Associative(spaced + "=", "//", host);
    }
  }

  /** Replacing the only `:` of a text. */
  lemma ReplaceOneColon(a: string, b: string)
    requires ':' !in a && ':' !in b
    ensures ReplaceAll(a + [':'] + b, ':', "=") == a + "=" + b
  {
    ReplaceAllConcat(a + [':'], b, ':', "=");
    ReplaceAllConcat(a, [':'], ':', "=");
    ReplaceAllCons(':', "", ':', "=");
    assert [':'] + "" == [':'];
  }

  /** Dots in an `exclude` value are escaped and the value is anchored:
      `exclude: *.log` becomes `ignoreFiles= *\\.log$`. */
  lemma ExcludeExample(stem: string, ext: string)
    requires '.' !in stem && ':' !in stem && '#' !in stem
    requires '.' !in ext && ':' !in ext && '#' !in ext
    ensures MigrateConfig("exclude:" + stem + "." + ext) == ("ignoreFiles=" + stem + EscapedDot + ext + "$", false)
  {
    var c := "exclude:" + stem + "." + ext;
    var value := stem + "." + ext;
    assert c == "exclude:" + value + "";
    assert '#' !in c;
    assert ':' !in value;
    ExcludeRewrite(c, value, "");
    ReplaceAllConcat(stem + ".", ext, '.', EscapedDot);
    ReplaceAllConcat(stem, ".", '.', EscapedDot);
    assert ReplaceAll(".", '.', EscapedDot) == EscapedDot;
    assert ReplaceAll("", ':', "=") == "";
    Associative("ignoreFiles=", stem + EscapedDot, ext);
    Associative("ignoreFiles=", stem, EscapedDot);
    assert "ignoreFiles=" + (stem + EscapedDot + ext) + "$" + "" == "ignoreFiles=" + (stem + EscapedDot + ext) + "$";
  }

  /** Keys are compared untrimmed: an indented ` url` is not renamed, its
      colon simply becomes `=`. */
  lemma IndentedUrlExample(value: string)
    requires ':' !in value && '#' !in value
    ensures MigrateConfig(" url:" + value) == (" url=" + value, false)
  {
    var fields := [" url", value];
    IndentedUrlFields(value);
    assert " url" !in OmitKeys;
    KeptFields(" url:" + value, fields);
    assert RewriteKey(fields) == fields;
    JoinCons(" url", [value], "=");
    assert " url=" == " url" + "=";
  }

  lemma IndentedUrlFields(value: string)
    requires ':' !in value && '#' !in value
    ensures Split(Payload(" url:" + value), ':') == [" url", value]
  {
    var c := " url:" + value;
    assert c == " url" + [':'] + value;
    assert '#' !in c;
    SplitConcat(" url", value, ':');
  }

  /** A comment-only line and a line without `:` are omitted. */
  lemma OmittedExamples()
    ensures MigrateConfig("# just a comment") == ("", true)
    ensures MigrateConfig("title") == ("", true)
  {
    assert Payload("# just a comment") == "";
    assert ':' !in Payload("title");
  }
}
