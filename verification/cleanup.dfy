/** The cleanup `extract_next_data` applies to a captured script body before parsing it
    (main.py lines 62-64). */
module CaptureCleanup {
  import opened Text

  /** The name of the global the page assigns its data to. */
  function NextDataName(): string
  {
    "window.__NEXT_DATA__"
  }

  /** How many characters `re.sub(r'^\s*' + name + r'\s*=\s*', '', t)` removes from the
      front of `t`, for a literal `name` that starts with a non-blank character. Without the
      MULTILINE flag `^` only matches at position 0, so the match, if any, is a prefix and at
      most one prefix goes. */
  function AssignmentEnd(name: string, t: string): (k: nat)
    ensures k <= |t|
    ensures k != 0 ==> name <= TrimStart(t)
  {
    var i := SkipSpace(t, 0);
    if i + |name| <= |t| && t[i..i + |name|] == name then
      var j := SkipSpace(t, i + |name|);
      if j < |t| && t[j] == '=' then SkipSpace(t, j + 1) else 0
    else 0
  }

  /** The substitution of lines 62-63: `t` without its assignment prefix. */
  function StripAssignment(name: string, t: string): string
  {
    t[AssignmentEnd(name, t)..]
  }

  /** Strip whitespace, drop the assignment prefix for `name`, drop every trailing ';'. */
  function CleanupFor(name: string, captured: string): (r: string)
    ensures !EndsWith(r, ';')
  {
    RStrip(StripAssignment(name, Strip(captured)), ';')
  }

  /** Lines 62-64, for the name `window.__NEXT_DATA__`. */
  function Cleanup(captured: string): (r: string)
    ensures !EndsWith(r, ';')
  {
    var name := NextDataName();
    CleanupFor(name, captured)
  }

  /** The name starts with a character that is not whitespace. */
  lemma NextDataNameStartsNonBlank()
    ensures |NextDataName()| > 0 && !IsSpace(NextDataName()[0])
  {
  }

  /** An assignment prefix, with any whitespace around the name and the '=', is removed and
      the text after it is kept whole. */
  lemma StripAssignmentRemovesPrefix(name: string, w1: string, w2: string, w3: string, rest: string)
    requires |name| > 0 && !IsSpace(name[0])
    requires AllSpace(w1) && AllSpace(w2) && AllSpace(w3)
    requires |rest| > 0 && !IsSpace(rest[0])
    ensures StripAssignment(name, w1 + name + w2 + "=" + w3 + rest) == rest
  {
    var t := w1 + name + w2 + "=" + w3 + rest;
    AssignmentLayout(name, w1, w2, w3, rest);
    StripAssignmentAt(name, t, |w1|, |w1| + |name| + |w2|, |w1| + |name| + |w2| + 1 + |w3|, rest);
  }

  /** Where the pieces of an assignment prefix sit in the text. */
  lemma AssignmentLayout(name: string, w1: string, w2: string, w3: string, rest: string)
    requires |name| > 0 && !IsSpace(name[0])
    requires AllSpace(w1) && AllSpace(w2) && AllSpace(w3)
    requires |rest| > 0 && !IsSpace(rest[0])
    ensures var t := w1 + name + w2 + "=" + w3 + rest;
            var i, j, k := |w1|, |w1| + |name| + |w2|, |w1| + |name| + |w2| + 1 + |w3|;
            && SkipSpace(t, 0) == i && t[i..i + |name|] == name
            && SkipSpace(t, i + |name|) == j && t[j] == '='
            && SkipSpace(t, j + 1) == k && t[k..] == rest
  {
    var t := w1 + name + w2 + "=" + w3 + rest;
    var i, j, k := |w1|, |w1| + |name| + |w2|, |w1| + |name| + |w2| + 1 + |w3|;
    assert t[i] == name[0];
    SkipWhileUnique(t, 0, IsSpace, i);
    assert t[i..i + |name|] == name;
    assert t[j] == '=';
    SkipWhileUnique(t, i + |name|, IsSpace, j);
    assert t[k] == rest[0];
    SkipWhileUnique(t, j + 1, IsSpace, k);
    assert t[k..] == rest;
  }

  /** The substitution removes everything up to the first non-blank character after the '='. */
  lemma StripAssignmentAt(name: string, t: string, i: nat, j: nat, k: nat, rest: string)
    requires i + |name| <= j < k <= |t|
    requires SkipSpace(t, 0) == i && t[i..i + |name|] == name
    requires SkipSpace(t, i + |name|) == j && t[j] == '='
    requires SkipSpace(t, j + 1) == k && t[k..] == rest
    ensures StripAssignment(name, t) == rest
  {
    assert AssignmentEnd(name, t) == k;
  }

  /** The prefix is removed once: text that repeats the assignment keeps its second copy. */
  lemma StripAssignmentRemovesOnlyOnce(name: string, rest: string)
    requires |name| > 0 && !IsSpace(name[0])
    requires |rest| > 0 && !IsSpace(rest[0])
    ensures var repeated := name + " = " + rest;
            StripAssignment(name, name + " = " + repeated) == repeated
  {
    var repeated := name + " = " + rest;
    assert AllSpace(" ") && AllSpace([]);
    assert name + " = " + repeated == [] + name + " " + "=" + " " + repeated;
    StripAssignmentRemovesPrefix(name, [], " ", " ", repeated);
  }

  /** `t` starts with `name`, then only whitespace up to an '=' at position `j`. */
  ghost predicate AssignmentAt(name: string, t: string, j: int)
  {
    && name <= t && |name| <= j < |t| && t[j] == '='
    && forall i {:trigger IsSpace(t[i])} :: |name| <= i < j ==> IsSpace(t[i])
  }

  /** `t` starts with an assignment to `name`: what `^\s*name\s*=` finds in a text that
      has no leading whitespace. */
  ghost predicate StartsWithAssignment(name: string, t: string)
  {
    exists j :: AssignmentAt(name, t, j)
  }

  /** On text without leading whitespace the substitution removes something exactly when the
      text starts with an assignment to `name`. */
  lemma AssignmentEndMatchesPattern(name: string, t: string)
    requires |t| == 0 || !IsSpace(t[0])
    ensures AssignmentEnd(name, t) != 0 <==> StartsWithAssignment(name, t)
  {
    SkipWhileUnique(t, 0, IsSpace, 0);
    if AssignmentEnd(name, t) != 0 {
      assert t[..|name|] == name;
      assert AssignmentAt(name, t, SkipSpace(t, |name|));
    }
    if StartsWithAssignment(name, t) {
      var j :| AssignmentAt(name, t, j);
      assert t[0..|name|] == name;
      SkipWhileUnique(t, |name|, IsSpace, j);
    }
  }

  /** Text with non-blank ends is its own `strip`. */
  lemma StripCleanText(text: string)
    requires |text| == 0 || (!IsSpace(text[0]) && !IsSpace(text[|text| - 1]))
    ensures Strip(text) == text
  {
    if |text| > 0 {
      assert AllSpace([]);
      assert [] + text + [] == text;
      StripPadded([], text, []);
    }
  }

  /** Text without surrounding whitespace, without an assignment to `name` at its start and
      without a trailing ';' comes out of the cleanup unchanged, including text that starts
      with the name but not with an assignment to it. */
  lemma CleanupKeepsCleanText(name: string, text: string)
    requires |text| == 0 || (!IsSpace(text[0]) && !IsSpace(text[|text| - 1]) && text[|text| - 1] != ';')
    requires !StartsWithAssignment(name, text)
    ensures CleanupFor(name, text) == text
  {
    StripCleanText(text);
    AssignmentEndMatchesPattern(name, text);
    assert StripAssignment(name, text) == text;
    assert text + [] == text;
    RStripPadded(text, ';', []);
    CleanupForSteps(name, text, text, text, text);
  }

  /** A name followed by something other than an assignment is not removed: text such as
      `window.__NEXT_DATA__.props` is kept. */
  lemma CleanupKeepsNameWithoutAssignment(name: string, rest: string)
    requires |name| > 0 && !IsSpace(name[0])
    requires |rest| > 0 && rest[0] != '=' && !IsSpace(rest[0]) && !IsSpace(rest[|rest| - 1]) && rest[|rest| - 1] != ';'
    ensures CleanupFor(name, name + rest) == name + rest
  {
    var t := name + rest;
    assert t[|name|] == rest[0];
    assert t[0] == name[0] && t[|t| - 1] == rest[|rest| - 1];
    CleanupKeepsCleanText(name, t);
  }

  /** A script body of the form `window.__NEXT_DATA__ = {...};` cleans up to the JSON text
      alone, whatever whitespace surrounds it and however many ';' end it. */
  lemma CleanupDropsAssignmentAndSemicolons(
    name: string, w1: string, w2: string, w3: string, json: string, semicolons: string, w4: string)
    requires |name| > 0 && !IsSpace(name[0])
    requires AllSpace(w1) && AllSpace(w2) && AllSpace(w3) && AllSpace(w4)
    requires |json| > 0 && !IsSpace(json[0]) && !IsSpace(json[|json| - 1]) && json[|json| - 1] != ';'
    requires forall i :: 0 <= i < |semicolons| ==> semicolons[i] == ';'
    ensures CleanupFor(name, w1 + name + w2 + "=" + w3 + json + semicolons + w4) == json
  {
    var captured := w1 + name + w2 + "=" + w3 + json + semicolons + w4;
    var body := json + semicolons;
    var x := name + w2 + "=" + w3 + body;
    AssignmentTextBounds(name, w2, w3, json, semicolons, body, x);
    assert captured == w1 + x + w4;
    StripPadded(w1, x, w4);
    StripAssignmentRemovesPrefix(name, [], w2, w3, body);
    RStripPadded(json, ';', semicolons);
    CleanupForSteps(name, captured, x, body, json);
  }

  /** The cleanup is the composition of its three steps. */
  lemma CleanupForSteps(name: string, captured: string, stripped: string, body: string, json: string)
    requires Strip(captured) == stripped
    requires StripAssignment(name, stripped) == body
    requires RStrip(body, ';') == json
    ensures CleanupFor(name, captured) == json
  {
  }

  /** The first and last characters of an assignment followed by JSON and semicolons. */
  lemma AssignmentTextBounds(name: string, w2: string, w3: string, json: string, semicolons: string, body: string, x: string)
    requires |name| > 0 && !IsSpace(name[0])
    requires |json| > 0 && !IsSpace(json[0]) && !IsSpace(json[|json| - 1])
    requires forall i :: 0 <= i < |semicolons| ==> semicolons[i] == ';'
    requires body == json + semicolons && x == name + w2 + "=" + w3 + body
    ensures |body| > 0 && !IsSpace(body[0])
    ensures |x| > 0 && !IsSpace(x[0]) && !IsSpace(x[|x| - 1])
    ensures AllSpace([]) && x == [] + name + w2 + "=" + w3 + body
  {
    assert x == [] + name + w2 + "=" + w3 + body;
    assert body[0] == json[0];
    assert x[0] == name[0];
    assert x[|x| - 1] == body[|body| - 1];
    if |semicolons| > 0 {
      assert body[|body| - 1] == ';';
    } else {
      assert body[|body| - 1] == json[|json| - 1];
    }
  }

  /** The same for the page's own global: `window.__NEXT_DATA__ = {...};;` gives `{...}`. */
  lemma CleanupDropsNextDataAssignment(w1: string, w2: string, w3: string, json: string, semicolons: string, w4: string)
    requires AllSpace(w1) && AllSpace(w2) && AllSpace(w3) && AllSpace(w4)
    requires |json| > 0 && !IsSpace(json[0]) && !IsSpace(json[|json| - 1]) && json[|json| - 1] != ';'
    requires forall i :: 0 <= i < |semicolons| ==> semicolons[i] == ';'
    ensures Cleanup(w1 + NextDataName() + w2 + "=" + w3 + json + semicolons + w4) == json
  {
    NextDataNameStartsNonBlank();
    CleanupDropsAssignmentAndSemicolons(NextDataName(), w1, w2, w3, json, semicolons, w4);
  }

  /** A capture that is already bare JSON is parsed as captured. */
  lemma CleanupKeepsBareJson(text: string)
    requires |text| > 0 && text[0] == '{' && !IsSpace(text[|text| - 1]) && text[|text| - 1] != ';'
    ensures Cleanup(text) == text
  {
    assert NextDataName()[0] == 'w';
    assert !(NextDataName() <= text);
    CleanupKeepsCleanText(NextDataName(), text);
  }
}
