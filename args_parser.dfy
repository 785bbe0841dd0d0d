/**
 * The option-string parser of the bezier field (`createArgsObj`): a string
 * such as `"curveOnly;scale:2"` becomes a dictionary from option name to
 * either the flag `true` or a string value.
 */
module ArgsParser {
  import opened Options
  import opened JsString

  /** A parsed option: the boolean `true` of a bare flag, or the text after `:`. */
  datatype ArgValue = Flag | Str(s: string)

  /** The key a `;`-segment contributes: its first `:`-piece. */
  function KeyOf(segment: string): string
  {
    Split(segment, ':')[0]
  }

  /** The value a segment contributes: `true` when it has one `:`-piece, else its second piece. */
  function ValueOf(segment: string): ArgValue
  {
    var pieces := Split(segment, ':');
    if |pieces| == 1 then Flag else Str(pieces[1])
  }

  /** The dictionary after the segments have been stored left to right. */
  function Fill(segments: seq<string>): map<string, ArgValue>
    decreases |segments|
  {
    if |segments| == 0 then map[]
    else
      var last := segments[|segments| - 1];
      Fill(segments[..|segments| - 1])[KeyOf(last) := ValueOf(last)]
  }

  /** The `;`-segments of an option string. */
  function Segments(argsStr: string): seq<string>
  {
    Split(argsStr, ';')
  }

  /** What `createArgsObj` returns; `None` stands for an argument that is not a string. */
  function Parse(argsStr: Option<string>): map<string, ArgValue>
  {
    match argsStr
    case None => map[]
    case Some(s) => Fill(Segments(s))
  }

  /** Segment `j` is the last one with its key. */
  predicate LastOfKey(segments: seq<string>, j: int)
  {
    0 <= j < |segments| && forall k :: j < k < |segments| ==> KeyOf(segments[k]) != KeyOf(segments[j])
  }

  /** The keys of the segments, in no particular order. */
  function KeysOf(segments: seq<string>): set<string>
  {
    set j | 0 <= j < |segments| :: KeyOf(segments[j])
  }

  /**
   * `createArgsObj`: a non-string argument gives an empty dictionary;
   * otherwise the string is split on `;` and each segment, left to right,
   * stores its value under its key.
   */
  method CreateArgsObj(argsStr: Option<string>) returns (argObj: map<string, ArgValue>)
    ensures argObj == Parse(argsStr)
    ensures argsStr.None? ==> argObj == map[]
    ensures argsStr.Some? ==> argObj.Keys == KeysOf(Segments(argsStr.value))
    ensures argsStr.Some? ==> forall j :: LastOfKey(Segments(argsStr.value), j) ==>
      argObj[KeyOf(Segments(argsStr.value)[j])] == ValueOf(Segments(argsStr.value)[j])
  {
    argObj := map[];
    if argsStr.Some? {
      var argsSpl := Split(argsStr.value, ';');
      var i := 0;
      while i < |argsSpl|
        invariant 0 <= i <= |argsSpl|
        invariant argObj == Fill(argsSpl[..i])
      {
        var keyValueSpl := Split(argsSpl[i], ':');
        argObj := argObj[keyValueSpl[0] := if |keyValueSpl| == 1 then Flag else Str(keyValueSpl[1])];
        assert argsSpl[..i + 1][..i] == argsSpl[..i];
        i := i + 1;
      }
      assert argsSpl[..i] == argsSpl;
      FillKeys(argsSpl);
      forall j | LastOfKey(argsSpl, j)
        ensures KeyOf(argsSpl[j]) in argObj && argObj[KeyOf(argsSpl[j])] == ValueOf(argsSpl[j])
      {
        FillLastWins(argsSpl, j);
      }
    }
  }

  /** The keys of the dictionary are exactly the keys of the segments. */
  lemma {:induction false} FillKeys(segments: seq<string>)
    ensures Fill(segments).Keys == KeysOf(segments)
    decreases |segments|
  {
    if |segments| > 0 {
      var n := |segments| - 1;
      var init := segments[..n];
      FillKeys(init);
      assert forall j :: 0 <= j < n ==> init[j] == segments[j];
      assert KeysOf(segments) == KeysOf(init) + {KeyOf(segments[n])};
    }
  }

  /**
   * The value stored under a key is that of the last segment with that key:
   * a segment is overwritten only by a later one with the same key.
   */
  lemma {:induction false} FillLastWins(segments: seq<string>, j: nat)
    requires LastOfKey(segments, j)
    ensures KeyOf(segments[j]) in Fill(segments)
    ensures Fill(segments)[KeyOf(segments[j])] == ValueOf(segments[j])
    decreases |segments|
  {
    var n := |segments| - 1;
    if j < n {
      var init := segments[..n];
      assert forall k :: j < k < n ==> init[k] == segments[k];
      FillLastWins(init, j);
    }
  }

  /** Every key in the dictionary comes from some segment, and its value from the last one with that key. */
  lemma ParseLookup(s: string, key: string)
    requires key in Parse(Some(s))
    ensures exists j :: 0 <= j < |Segments(s)| && KeyOf(Segments(s)[j]) == key
    ensures exists j ::
      && LastOfKey(Segments(s), j)
      && KeyOf(Segments(s)[j]) == key
      && Parse(Some(s))[key] == ValueOf(Segments(s)[j])
  {
    var segs := Segments(s);
    FillKeys(segs);
    var j :| 0 <= j < |segs| && KeyOf(segs[j]) == key;
    while exists k :: j < k < |segs| && KeyOf(segs[k]) == key
      invariant 0 <= j < |segs| && KeyOf(segs[j]) == key
      decreases |segs| - j
    {
      var k :| j < k < |segs| && KeyOf(segs[k]) == key;
      j := k;
    }
    FillLastWins(segs, j);
  }

  /** A non-string argument gives an empty dictionary. */
  lemma ParseNonString()
    ensures Parse(None) == map[]
  {
  }

  /** A segment without `:` maps its whole text to `true`, and only such a segment gives `true`. */
  lemma SegmentWithoutColon(segment: string)
    ensures ValueOf(segment) == Flag <==> ':' !in segment
    ensures ':' !in segment ==> KeyOf(segment) == segment
  {
    SplitSingleIff(segment, ':');
    if ':' !in segment {
      SplitNoSep(segment, ':');
    }
  }

  /**
   * A segment whose first `:` is at `i` maps `segment[..i]` to the text
   * between that `:` and the next one (or the end): `"a:"` gives `""` and
   * `"a:b:c"` gives `"b"`.
   */
  lemma SegmentWithColon(segment: string, i: nat)
    requires i < |segment| && segment[i] == ':' && ':' !in segment[..i]
    ensures KeyOf(segment) == segment[..i]
    ensures ValueOf(segment).Str?
    ensures var v := ValueOf(segment).s;
      && v <= segment[i + 1..]
      && ':' !in v
      && (i + 1 + |v| == |segment| || segment[i + 1 + |v|] == ':')
  {
    assert segment == segment[..i] + [':'] + segment[i + 1..];
    SplitConcat(segment[..i], segment[i + 1..], ':');
    FirstPiece(segment[i + 1..], ':');
  }

  /** Every string, even `""`, gives at least one key. */
  lemma ParseStringNonEmpty(s: string)
    ensures |Parse(Some(s))| >= 1
    ensures KeyOf(Segments(s)[0]) in Parse(Some(s))
  {
    FillKeys(Segments(s));
  }

  /** The empty string is the single flag `""`. */
  lemma ParseEmptyString()
    ensures Parse(Some("")) == map["" := Flag]
  {
    SegmentWithoutColon("");
  }

  /** `"a;b:c;d"` gives `{a: true, b: "c", d: true}`. */
  lemma ParseExample()
    ensures Parse(Some("a;b:c;d")) == map["a" := Flag, "b" := Str("c"), "d" := Flag]
  {
    var segs := ["a", "b:c", "d"];
    assert "a;b:c;d" == Join(segs, ';');
    SplitJoin(segs, ';');
    SegmentWithoutColon("a");
    SegmentWithoutColon("d");
    assert "b:c" == Join(["b", "c"], ':');
    SplitJoin(["b", "c"], ':');
    assert segs[..2][..1] == ["a"];
    assert segs[..2] == ["a", "b:c"];
    assert Fill(["a"]) == map["a" := Flag];
    assert Fill(["a", "b:c"]) == map["a" := Flag, "b" := Str("c")];
    assert Parse(Some("a;b:c;d")) == Fill(segs);
  }

  /** With a duplicated key the later segment wins: `"a:1;a:2"` gives `{a: "2"}`. */
  lemma ParseDuplicateKey()
    ensures Parse(Some("a:1;a:2")) == map["a" := Str("2")]
  {
    var segs := ["a:1", "a:2"];
    assert "a:1;a:2" == Join(segs, ';');
    SplitJoin(segs, ';');
    assert "a:2" == Join(["a", "2"], ':');
    SplitJoin(["a", "2"], ':');
    assert "a:1" == Join(["a", "1"], ':');
    SplitJoin(["a", "1"], ':');
    FillKeys(segs);
    FillLastWins(segs, 1);
    assert KeysOf(segs) == {"a"};
  }

  /** A trailing `;` adds the empty flag: `"a;"` gives `{a: true, "": true}`. */
  lemma ParseTrailingSemicolon()
    ensures Parse(Some("a;")) == map["a" := Flag, "" := Flag]
  {
    var segs := ["a", ""];
    assert "a;" == Join(segs, ';');
    SplitJoin(segs, ';');
    SegmentWithoutColon("a");
    SegmentWithoutColon("");
    assert segs[..1] == ["a"];
    assert Fill(["a"]) == map["a" := Flag];
    assert Parse(Some("a;")) == Fill(segs);
  }

  /** `"a:"` gives the empty string, not `true`; `"a:b:c"` drops `":c"`. */
  lemma ParseColonEdgeCases()
    ensures Parse(Some("a:")) == map["a" := Str("")]
    ensures Parse(Some("a:b:c")) == map["a" := Str("b")]
  {
    SplitNoSep("a:", ';');
    assert "a:" == Join(["a", ""], ':');
    SplitJoin(["a", ""], ':');
    SplitNoSep("a:b:c", ';');
    assert "a:b:c" == Join(["a", "b", "c"], ':');
    SplitJoin(["a", "b", "c"], ':');
  }

  /** `"curveOnly"` parses to the single flag `curveOnly`. */
  lemma ParseCurveOnly()
    ensures Parse(Some("curveOnly")) == map["curveOnly" := Flag]
  {
    SplitNoSep("curveOnly", ';');
    SegmentWithoutColon("curveOnly");
  }
}
