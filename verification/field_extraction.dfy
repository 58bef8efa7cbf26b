/**
  Dotted-key field extraction from the webhook payload (`getValue`): the key
  is split on '.', every segment but the last must lead to a nested object,
  and the last segment's value is read as a string. Every failure on the way
  (a missing member, a value that is not an object, a value with no string
  form, a key with no segments) yields "" instead of an error.
 */
module FieldExtraction {
  import opened Json
  import opened JavaText

  // The dotted keys "issue.user.login", "issue.number", "issue.html_url" and
  // "issue.title", spelled as concatenations so that the verifier reasons about
  // their split through the lemmas below instead of evaluating it.
  const ActionKey: string := "action"
  const ReporterKey: string := "issue" + "." + "user" + "." + "login"
  const NumberKey: string := "issue" + "." + "number"
  const UrlKey: string := "issue" + "." + "html_url"
  const TitleKey: string := "issue" + "." + "title"

  /** The member names a dotted key stands for: `key.split("\\.")`. */
  function Segments(key: string): seq<string>
  {
    Split(key, '.')
  }

  /** The string a leaf contributes: its `getAsString` text, or "" when that throws. */
  function TextOf(leaf: Json): string
  {
    match AsString(leaf)
    case Some(s) => s
    case None => ""
  }

  /**
    What `getValue(key, data)` denotes: the text of the value the dotted key
    names in the payload, or "" when it names none. A payload that is not an
    object (as a missing body would be) names nothing.
   */
  function ValueAt(key: string, data: Json): string
  {
    var path := Segments(key);
    if |path| == 0 then ""
    else
      match Resolve(path, data)
      case Some(leaf) => TextOf(leaf)
      case None => ""
  }

  /**
    `getValue` as the handler runs it: the loop over all segments but the
    last, then a read of the last one, with each throwing step returning "".
    It always returns, and what it returns is `ValueAt`.
   */
  method GetValue(key: string, data: Json) returns (r: string)
    ensures r == ValueAt(key, data)
  {
    var keys := Split(key, '.');
    if |keys| == 0 {
      // keys[keys.length - 1] is out of bounds
      return "";
    }
    if !data.Obj? {
      // the first elm.get(...) dereferences a missing body
      ValueAtFailedStep(key, data, 0, data);
      return "";
    }
    var elm := data.fields;
    var i := 0;
    while i < |keys| - 1
      invariant 0 <= i <= |keys| - 1
      invariant Resolve(keys[..i], data) == Some(Obj(elm))
    {
      if keys[i] !in elm || !elm[keys[i]].Obj? {
        // elm.get(keys[i]) is null, or getAsJsonObject() throws
        ValueAtIntermediateNotObject(key, data, i, elm);
        return "";
      }
      ResolveAppend(keys[..i], [keys[i]], data);
      assert keys[..i] + [keys[i]] == keys[..i + 1];
      elm := elm[keys[i]].fields;
      i := i + 1;
    }
    var last := keys[i];
    if last !in elm {
      // elm.get(last) is null
      ValueAtFailedStep(key, data, i, Obj(elm));
      return "";
    }
    ValueAtLastStep(key, data, elm);
    r := TextOf(elm[last]);
  }

  /**
    A failure at any step of the walk gives "": if the first `i` segments lead
    to a value that is not an object or lacks segment `i`, the result is "".
   */
  lemma ValueAtFailedStep(key: string, data: Json, i: nat, stuck: Json)
    requires i < |Segments(key)|
    requires Resolve(Segments(key)[..i], data) == Some(stuck)
    requires !(stuck.Obj? && Segments(key)[i] in stuck.fields)
    ensures ValueAt(key, data) == ""
  {
    var path := Segments(key);
    ResolveAppend(path[..i], path[i..], data);
    assert path[..i] + path[i..] == path;
  }

  /**
    An intermediate segment naming a missing member or a value that is not an
    object stops the walk, as the segments after it cannot be looked up.
   */
  lemma ValueAtIntermediateNotObject(key: string, data: Json, i: nat, m: map<string, Json>)
    requires i + 1 < |Segments(key)|
    requires Resolve(Segments(key)[..i], data) == Some(Obj(m))
    requires Segments(key)[i] !in m || !m[Segments(key)[i]].Obj?
    ensures ValueAt(key, data) == ""
  {
    var path := Segments(key);
    if path[i] in m {
      ResolveAppend(path[..i], [path[i]], data);
      assert path[..i] + [path[i]] == path[..i + 1];
      ValueAtFailedStep(key, data, i + 1, m[path[i]]);
    } else {
      ValueAtFailedStep(key, data, i, Obj(m));
    }
  }

  /**
    When all segments but the last lead to an object holding the last one,
    the result is that member's text.
   */
  lemma ValueAtLastStep(key: string, data: Json, m: map<string, Json>)
    requires |Segments(key)| > 0
    requires Resolve(Segments(key)[..|Segments(key)| - 1], data) == Some(Obj(m))
    requires Segments(key)[|Segments(key)| - 1] in m
    ensures ValueAt(key, data) == TextOf(m[Segments(key)[|Segments(key)| - 1]])
  {
    var path := Segments(key);
    var n := |path| - 1;
    ResolveAppend(path[..n], [path[n]], data);
    assert path[..n] + [path[n]] == path;
  }

  /** A key that resolves to null, an array or an object gives "". */
  lemma ValueAtNonPrimitive(key: string, data: Json, leaf: Json)
    requires Resolve(Segments(key), data) == Some(leaf)
    requires !IsPrimitive(leaf)
    ensures ValueAt(key, data) == ""
  {
  }

  /**
    A non-empty result is always the string form of a primitive that the key's
    segments lead to.
   */
  lemma ValueAtFound(key: string, data: Json)
    requires ValueAt(key, data) != ""
    ensures |Segments(key)| > 0
    ensures Resolve(Segments(key), data).Some?
    ensures IsPrimitive(Resolve(Segments(key), data).value)
    ensures AsString(Resolve(Segments(key), data).value) == Some(ValueAt(key, data))
  {
  }

  /**
    Round trip through the payload: writing the segments as a dotted key and
    the leaf at the end of those segments, extraction returns the leaf's text.
   */
  lemma ValueAtNest(path: seq<string>, leaf: Json)
    requires |path| >= 1
    requires forall i :: 0 <= i < |path| ==> '.' !in path[i]
    requires path[|path| - 1] != ""
    ensures ValueAt(Join(path, '.'), Nest(path, leaf)) == TextOf(leaf)
  {
    SplitJoin(path, '.');
    ResolveNest(path, leaf);
  }

  /** A dotted key built from non-empty, dot-free names splits back into those names. */
  lemma SegmentsOfJoin(names: seq<string>)
    requires |names| >= 1
    requires forall i :: 0 <= i < |names| ==> names[i] != "" && '.' !in names[i]
    ensures Segments(Join(names, '.')) == names
  {
    SplitJoin(names, '.');
  }

  /** The handler's constant keys split into the member names they stand for. */
  lemma ActionKeySegments()
    ensures Segments(ActionKey) == ["action"]
  {
  }

  lemma ReporterKeySegments()
    ensures Segments(ReporterKey) == ["issue", "user", "login"]
  {
    assert Join(["issue", "user", "login"], '.') == ReporterKey;
    SegmentsOfJoin(["issue", "user", "login"]);
  }

  lemma NumberKeySegments()
    ensures Segments(NumberKey) == ["issue", "number"]
  {
    assert Join(["issue", "number"], '.') == NumberKey;
    SegmentsOfJoin(["issue", "number"]);
  }

  lemma UrlKeySegments()
    ensures Segments(UrlKey) == ["issue", "html_url"]
  {
    assert Join(["issue", "html_url"], '.') == UrlKey;
    SegmentsOfJoin(["issue", "html_url"]);
  }

  lemma TitleKeySegments()
    ensures Segments(TitleKey) == ["issue", "title"]
  {
    assert Join(["issue", "title"], '.') == TitleKey;
    SegmentsOfJoin(["issue", "title"]);
  }

  /** `getValue("action", {"action":"opened"})` is "opened". */
  lemma ActionOfOpenedEvent()
    ensures ValueAt(ActionKey, Obj(map["action" := Str("opened")])) == "opened"
  {
    ActionKeySegments();
  }
}
