// Loop-variable expansion in component names: `ParserState::expandName` of
// SgtCore/Parser.cc, which evaluates every "${...}" placeholder with the
// Calculator after substituting the active loops' counters, and the older
// `ParserState::expandName` of SmartGridToolbox/Parser.cc, which replaces
// "${name}" by the counter's decimal text; and the loop node of
// SmartGridToolbox/Parser.cc's `parseComponents`.

module NameExpansion {
  import opened Shared
  import opened Calculator

  /** The parts of a `ParserLoop` that name expansion reads. */
  datatype Loop = Loop(name: string, i: int)

  // ------------------------------------------------------------ text search

  /** A line terminator, which '.' in an ECMAScript regex does not match. */
  predicate IsLineTerminator(c: char)
  {
    c == '\n' || c == '\r' || c as int == 0x2028 || c as int == 0x2029
  }

  /** The lazy `.*?\}`: the first '}' at or after k, if no line terminator
      comes before it. */
  function CloseFrom(s: string, k: nat): (r: Option<nat>)
    requires k <= |s|
    ensures r.Some? ==> k <= r.value < |s| && s[r.value] == '}'
    ensures r.Some? ==> forall m :: k <= m < r.value ==> s[m] != '}' && !IsLineTerminator(s[m])
    decreases |s| - k
  {
    if k == |s| || IsLineTerminator(s[k]) then None
    else if s[k] == '}' then Some(k)
    else CloseFrom(s, k + 1)
  }

  /** The end of a match of "\$\{.*?\}" starting at i. */
  function MatchAt(s: string, i: nat): (r: Option<nat>)
    requires i <= |s|
    ensures r.Some? ==> i + 2 <= r.value < |s|
  {
    if i + 1 < |s| && s[i] == '$' && s[i + 1] == '{' then CloseFrom(s, i + 2) else None
  }

  /** The leftmost match at or after `from`: its start and the position of
      its '}'. */
  function NextMatch(s: string, from: nat): (r: Option<(nat, nat)>)
    requires from <= |s|
    ensures r.Some? ==> from <= r.value.0 < |s| && MatchAt(s, r.value.0) == Some(r.value.1)
    ensures r.Some? ==> forall m :: from <= m < r.value.0 ==> MatchAt(s, m).None?
    ensures r.None? ==> forall m :: from <= m <= |s| ==> MatchAt(s, m).None?
    decreases |s| - from
  {
    if from == |s| then None
    else if MatchAt(s, from).Some? then Some((from, MatchAt(s, from).value))
    else NextMatch(s, from + 1)
  }

  /** The text between matches and the text inside each, as
      `sregex_iterator` walks them: each entry is a match's prefix and the
      placeholder between "${" and "}"; `rest` is what follows the last. */
  datatype Split = Split(parts: seq<(string, string)>, rest: string)

  function Splits(s: string, from: nat): (r: Split)
    requires from <= |s|
    decreases |s| - from
  {
    match NextMatch(s, from)
    case None => Split([], s[from..])
    case Some((i, j)) =>
      var tail := Splits(s, j + 1);
      Split([(s[from..i], s[i + 2..j])] + tail.parts, tail.rest)
  }

  /** `regex_replace(s, regex(pat), rep)` for a pattern without regex
      metacharacters: every occurrence, left to right and not overlapping,
      is replaced; an empty pattern matches at every position. */
  function ReplaceAll(s: string, pat: string, rep: string): string
    decreases |s|
  {
    if |pat| == 0 then
      (if |s| == 0 then rep else rep + [s[0]] + ReplaceAll(s[1..], pat, rep))
    else if |s| == 0 then []
    else if pat <= s then rep + ReplaceAll(s[|pat|..], pat, rep)
    else [s[0]] + ReplaceAll(s[1..], pat, rep)
  }

  // ----------------------------------------------------- SgtCore expandName

  /** The inner loop over the active loops for one placeholder, as written:
      each loop's name is substituted into the placeholder text, which is
      then evaluated and its value appended, once per loop. The result is
      the substituted text and what was appended. */
  function Substituted(sub: string, loops: seq<Loop>): (r: Result<(string, string)>)
    decreases |loops|
  {
    if |loops| == 0 then Ok((sub, ""))
    else
      match Substituted(sub, loops[..|loops| - 1])
      case Err(e) => Err(e)
      case Ok((cur, out)) => Evaluate(cur, out, loops[|loops| - 1])
  }

  /** One pass of that loop: loop l's counter substituted for its name in
      the text so far, which is evaluated and its value appended. */
  function Evaluate(cur: string, out: string, l: Loop): Result<(string, string)>
  {
    var next := ReplaceAll(cur, l.name, Decimal(l.i));
    match Calc(next)
    case Parsed(v, _) => Ok((next, out + Decimal(v)))
    case NoMatch => Err("Ill-formed expression for variables")
    case DivByZero => Err("integer division by zero")
  }

  /** An error in the first n loops is the error of them all. */
  lemma {:induction false} SubstitutedErr(sub: string, loops: seq<Loop>, n: nat)
    requires n <= |loops| && Substituted(sub, loops[..n]).Err?
    ensures Substituted(sub, loops) == Substituted(sub, loops[..n])
    decreases |loops| - n
  {
    if n < |loops| {
      assert loops[..n + 1][..n] == loops[..n];
      SubstitutedErr(sub, loops, n + 1);
    } else {
      assert loops[..n] == loops;
    }
  }

  /** The output for the first |parts| matches. */
  function ExpandParts(parts: seq<(string, string)>, loops: seq<Loop>): (r: Result<string>)
    decreases |parts|
  {
    if |parts| == 0 then Ok("")
    else
      match ExpandParts(parts[..|parts| - 1], loops)
      case Err(e) => Err(e)
      case Ok(done) =>
        var part := parts[|parts| - 1];
        match Substituted(part.1, loops)
        case Err(e) => Err(e)
        case Ok((_, out)) => Ok(done + part.0 + out)
  }

  lemma ExpandPartsNext(parts: seq<(string, string)>, loops: seq<Loop>, m: nat)
    requires m < |parts| && ExpandParts(parts[..m], loops).Ok?
    ensures ExpandParts(parts[..m + 1], loops)
            == match Substituted(parts[m].1, loops)
               case Err(e) => Err(e)
               case Ok((_, out)) => Ok(ExpandParts(parts[..m], loops).value + parts[m].0 + out)
  {
    assert parts[..m + 1][..m] == parts[..m];
  }

  /** An error in the first n parts is the error of them all. */
  lemma {:induction false} ExpandPartsErr(parts: seq<(string, string)>, loops: seq<Loop>, n: nat)
    requires n <= |parts| && ExpandParts(parts[..n], loops).Err?
    ensures ExpandParts(parts, loops) == ExpandParts(parts[..n], loops)
    decreases |parts| - n
  {
    if n < |parts| {
      assert parts[..n + 1][..n] == parts[..n];
      ExpandPartsErr(parts, loops, n + 1);
    } else {
      assert parts[..n] == parts;
    }
  }

  /** `expandName` as written: the target unchanged when it has no
      placeholder; otherwise each placeholder's prefix and values, and the
      text after the last placeholder is dropped. */
  function ExpandAsWritten(target: string, loops: seq<Loop>): Result<string>
  {
    var sp := Splits(target, 0);
    if |sp.parts| == 0 then Ok(target) else ExpandParts(sp.parts, loops)
  }

  method ExpandName(target: string, loops: seq<Loop>) returns (r: Result<string>)
    ensures r == ExpandAsWritten(target, loops)
  {
    var sp := Splits(target, 0);
    if |sp.parts| == 0 {
      return Ok(target);
    }
    var result := "";
    var m := 0;
    while m < |sp.parts|
      invariant 0 <= m <= |sp.parts|
      invariant ExpandParts(sp.parts[..m], loops) == Ok(result)
    {
      result := result + sp.parts[m].0;
      var values := PlaceholderValues(sp.parts[m].1, loops);
      ExpandPartsNext(sp.parts, loops, m);
      if values.Err? {
        ExpandPartsErr(sp.parts, loops, m + 1);
        return Err(values.msg);
      }
      result := result + values.value.1;
      m := m + 1;
    }
    assert sp.parts[..m] == sp.parts;
    r := Ok(result);
  }

  /** The inner loop of `expandName` over the active loops. */
  method PlaceholderValues(sub: string, loops: seq<Loop>) returns (r: Result<(string, string)>)
    ensures r == Substituted(sub, loops)
  {
    var substr := sub;
    var out := "";
    var k := 0;
    while k < |loops|
      invariant 0 <= k <= |loops|
      invariant Substituted(sub, loops[..k]) == Ok((substr, out))
    {
      assert loops[..k + 1][..k] == loops[..k];
      ghost var step := Evaluate(substr, out, loops[k]);
      substr := ReplaceAll(substr, loops[k].name, Decimal(loops[k].i));
      var c := Calc(substr);
      if c.NoMatch? {
        SubstitutedErr(sub, loops, k + 1);
        return Err("Ill-formed expression for variables");
      } else if c.DivByZero? {
        SubstitutedErr(sub, loops, k + 1);
        return Err("integer division by zero");
      }
      out := out + Decimal(c.val);
      assert step == Ok((substr, out));
      k := k + 1;
    }
    assert loops[..k] == loops;
    r := Ok((substr, out));
  }

  // --------------------------------------------------------- as intended

  /** Every loop's counter substituted into the placeholder, then one
      evaluation. */
  function SubstituteAll(sub: string, loops: seq<Loop>): string
    decreases |loops|
  {
    if |loops| == 0 then sub
    else ReplaceAll(SubstituteAll(sub, loops[..|loops| - 1]), loops[|loops| - 1].name,
                    Decimal(loops[|loops| - 1].i))
  }

  function ExpandPartsFixed(parts: seq<(string, string)>, loops: seq<Loop>): Result<string>
    decreases |parts|
  {
    if |parts| == 0 then Ok("")
    else
      match ExpandPartsFixed(parts[..|parts| - 1], loops)
      case Err(e) => Err(e)
      case Ok(done) =>
        var part := parts[|parts| - 1];
        match Calc(SubstituteAll(part.1, loops))
        case Parsed(v, _) => Ok(done + part.0 + Decimal(v))
        case NoMatch => Err("Ill-formed expression for variables")
        case DivByZero => Err("integer division by zero")
  }

  /** Name expansion as intended: each placeholder replaced by the value
      of its expression once, and the text after the last kept. */
  function ExpandFixed(target: string, loops: seq<Loop>): Result<string>
  {
    var sp := Splits(target, 0);
    if |sp.parts| == 0 then Ok(target)
    else match ExpandPartsFixed(sp.parts, loops)
      case Err(e) => Err(e)
      case Ok(s) => Ok(s + sp.rest)
  }

  // ------------------------------------------------- SmartGridToolbox version

  /** `expandName` of SmartGridToolbox/Parser.cc: for each active loop in
      turn, `replace_all` of "${name}" by the counter's decimal text. */
  function ExpandByReplace(target: string, loops: seq<Loop>): string
    decreases |loops|
  {
    if |loops| == 0 then target
    else ReplaceAll(ExpandByReplace(target, loops[..|loops| - 1]),
                    "${" + loops[|loops| - 1].name + "}", Decimal(loops[|loops| - 1].i))
  }

  // ------------------------------------------------------------------ lemmas

  predicate NoChar(s: string, c: char)
  {
    forall m :: 0 <= m < |s| ==> s[m] != c
  }

  lemma {:induction false} NoMatchWithoutDollar(s: string, from: nat)
    requires from <= |s| && NoChar(s[from..], '$')
    ensures NextMatch(s, from).None?
    decreases |s| - from
  {
    if from < |s| {
      assert s[from..][0] == s[from];
      assert s[from + 1..] == s[from..][1..];
      NoMatchWithoutDollar(s, from + 1);
    }
  }

  /** Text without '$' is left as it is. */
  lemma NoPlaceholder(target: string, loops: seq<Loop>)
    requires NoChar(target, '$')
    ensures ExpandAsWritten(target, loops) == Ok(target)
    ensures ExpandFixed(target, loops) == Ok(target)
  {
    assert target[0..] == target;
    NoMatchWithoutDollar(target, 0);
  }

  lemma {:induction false} CloseAt(s: string, k: nat, j: nat)
    requires k <= j < |s| && s[j] == '}'
    requires forall m :: k <= m < j ==> s[m] != '}' && !IsLineTerminator(s[m])
    ensures CloseFrom(s, k) == Some(j)
    decreases j - k
  {
    if k < j {
      CloseAt(s, k + 1, j);
    }
  }

  lemma {:induction false} FirstMatchAfter(s: string, from: nat, i: nat)
    requires from <= i <= |s| && MatchAt(s, i).Some?
    requires forall m :: from <= m < i ==> s[m] != '$'
    ensures NextMatch(s, from) == Some((i, MatchAt(s, i).value))
    decreases i - from
  {
    if from < i {
      FirstMatchAfter(s, from + 1, i);
    }
  }

  /** The single placeholder of pre + "${" + name + "}" + post, when the
      outer texts hold no '$' and the name no '}' or line break. */
  lemma OnePlaceholder(pre: string, name: string, post: string)
    requires NoChar(pre, '$') && NoChar(post, '$') && NoChar(name, '}')
    requires forall m :: 0 <= m < |name| ==> !IsLineTerminator(name[m])
    ensures Splits(pre + "${" + name + "}" + post, 0) == Split([(pre, name)], post)
  {
    OnePlaceholderIn(pre, name, post, pre + "${" + name + "}" + post);
  }

  lemma OnePlaceholderIn(pre: string, name: string, post: string, s: string)
    requires NoChar(pre, '$') && NoChar(post, '$') && NoChar(name, '}')
    requires forall m :: 0 <= m < |name| ==> !IsLineTerminator(name[m])
    requires s == pre + "${" + name + "}" + post
    ensures Splits(s, 0) == Split([(pre, name)], post)
  {
    var j := |pre| + 2 + |name|;
    PlaceholderLayout(pre, name, post, s);
    FirstPlaceholder(pre, name, post);
    NoPlaceholderFrom(s, j + 1);
    SplitOne(s, |pre|, j, pre, name, post);
  }

  /** A text whose first match is at (i, j) and holds none after it splits into one part. */
  lemma SplitOne(s: string, i: nat, j: nat, pre: string, name: string, post: string)
    requires NextMatch(s, 0) == Some((i, j)) && j < |s|
    requires s[0..i] == pre && s[i + 2..j] == name
    requires Splits(s, j + 1) == Split([], post)
    ensures Splits(s, 0) == Split([(pre, name)], post)
  {
    SplitsAtMatch(s, 0, i, j);
    assert [(pre, name)] + [] == [(pre, name)];
  }

  /** Where the parts of pre + "${" + name + "}" + post sit. */
  lemma PlaceholderLayout(pre: string, name: string, post: string, s: string)
    requires s == pre + "${" + name + "}" + post
    ensures |s| == |pre| + |name| + 3 + |post|
    ensures s[0..|pre|] == pre && s[|pre| + 2..|pre| + 2 + |name|] == name
    ensures s[|pre| + 3 + |name|..] == post
  {
  }

  /** A match at (i, j) found from `from` makes the split one part longer. */
  lemma SplitsAtMatch(s: string, from: nat, i: nat, j: nat)
    requires from <= |s| && NextMatch(s, from) == Some((i, j))
    ensures j + 1 <= |s| && from <= i && i + 2 <= j
    ensures Splits(s, from) == Split([(s[from..i], s[i + 2..j])] + Splits(s, j + 1).parts, Splits(s, j + 1).rest)
  {
    assert MatchAt(s, i) == Some(j);
    var tail := Splits(s, j + 1);
    assert Splits(s, from) == Split([(s[from..i], s[i + 2..j])] + tail.parts, tail.rest);
  }

  lemma FirstPlaceholder(pre: string, name: string, post: string)
    requires NoChar(pre, '$') && NoChar(name, '}')
    requires forall m :: 0 <= m < |name| ==> !IsLineTerminator(name[m])
    ensures NextMatch(pre + "${" + name + "}" + post, 0) == Some((|pre|, |pre| + 2 + |name|))
  {
    var s := pre + "${" + name + "}" + post;
    var i := |pre|;
    var j := |pre| + 2 + |name|;
    assert s[i] == '$' && s[i + 1] == '{' && s[j] == '}';
    forall m | i + 2 <= m < j
      ensures s[m] != '}' && !IsLineTerminator(s[m])
    {
      assert s[m] == name[m - i - 2];
    }
    CloseAt(s, i + 2, j);
    FirstMatchAfter(s, 0, i);
  }

  /** Text without '$' from `from` on is the rest, with no parts. */
  lemma NoPlaceholderFrom(s: string, from: nat)
    requires from <= |s| && NoChar(s[from..], '$')
    ensures Splits(s, from) == Split([], s[from..])
  {
    NoMatchWithoutDollar(s, from);
  }

  lemma {:induction false} ReplaceWhole(pat: string, rep: string)
    requires |pat| > 0
    ensures ReplaceAll(pat, pat, rep) == rep
  {
    assert pat[|pat|..] == [];
  }

  /** One loop substituted into a placeholder that is its name gives the
      counter's text, once. */
  lemma SubstitutedOne(name: string, k: int)
    requires |name| > 0 && -0x8000_0000 < k < 0x8000_0000
    ensures Substituted(name, [Loop(name, k)]) == Ok((Decimal(k), Decimal(k)))
    ensures SubstituteAll(name, [Loop(name, k)]) == Decimal(k)
  {
    ReplaceWhole(name, Decimal(k));
    DecimalParse(k);
    var loops := [Loop(name, k)];
    assert loops[..0] == [];
    assert Substituted(name, []) == Ok((name, ""));
    assert "" + Decimal(k) == Decimal(k);
  }

  /** Expansion of a target whose only placeholder holds `name`, with
      `pre` before it and `post` after. */
  lemma ExpandSingle(target: string, pre: string, name: string, post: string, loops: seq<Loop>)
    requires Splits(target, 0) == Split([(pre, name)], post)
    ensures ExpandAsWritten(target, loops)
            == match Substituted(name, loops) case Err(e) => Err(e) case Ok((_, out)) => Ok(pre + out)
  {
    var parts := [(pre, name)];
    assert parts[..0] == [] && parts[|parts| - 1] == (pre, name);
    assert ExpandParts(parts[..0], loops) == Ok("");
    var sub := Substituted(name, loops);
    if sub.Ok? {
      assert ExpandParts(parts, loops) == Ok("" + pre + sub.value.1);
      assert "" + pre + sub.value.1 == pre + sub.value.1;
    }
  }

  lemma ExpandSingleFixed(target: string, pre: string, name: string, post: string, loops: seq<Loop>)
    requires Splits(target, 0) == Split([(pre, name)], post)
    ensures ExpandFixed(target, loops)
            == match Calc(SubstituteAll(name, loops))
               case Parsed(v, _) => Ok(pre + Decimal(v) + post)
               case NoMatch => Err("Ill-formed expression for variables")
               case DivByZero => Err("integer division by zero")
  {
    var parts := [(pre, name)];
    assert parts[..0] == [] && parts[|parts| - 1] == (pre, name);
    assert ExpandPartsFixed(parts[..0], loops) == Ok("");
    var c := Calc(SubstituteAll(name, loops));
    if c.Parsed? {
      assert ExpandPartsFixed(parts, loops) == Ok("" + pre + Decimal(c.val));
      assert "" + pre + Decimal(c.val) == pre + Decimal(c.val);
    }
  }

  /** "pre${i}post" with one active loop i whose counter is k: as written
      the text after the placeholder is lost. */
  lemma ExpandOneLoopAsWritten(pre: string, name: string, post: string, k: int)
    requires NoChar(pre, '$') && NoChar(post, '$') && NoChar(name, '}') && |name| > 0
    requires forall m :: 0 <= m < |name| ==> !IsLineTerminator(name[m])
    requires -0x8000_0000 < k < 0x8000_0000
    ensures ExpandAsWritten(pre + "${" + name + "}" + post, [Loop(name, k)]) == Ok(pre + Decimal(k))
  {
    OnePlaceholder(pre, name, post);
    ExpandSingle(pre + "${" + name + "}" + post, pre, name, post, [Loop(name, k)]);
    SubstitutedOne(name, k);
  }

  /** As intended, the text after the placeholder is kept. */
  lemma ExpandOneLoop(pre: string, name: string, post: string, k: int)
    requires NoChar(pre, '$') && NoChar(post, '$') && NoChar(name, '}') && |name| > 0
    requires forall m :: 0 <= m < |name| ==> !IsLineTerminator(name[m])
    requires -0x8000_0000 < k < 0x8000_0000
    ensures ExpandFixed(pre + "${" + name + "}" + post, [Loop(name, k)]) == Ok(pre + Decimal(k) + post)
  {
    OnePlaceholder(pre, name, post);
    ExpandSingleFixed(pre + "${" + name + "}" + post, pre, name, post, [Loop(name, k)]);
    SubstitutedOne(name, k);
    DecimalParse(k);
  }

  /** With two active loops, as written a placeholder naming the first is
      evaluated once per loop, so its value appears twice. */
  lemma ValuePerLoopAsWritten(name: string, other: string, k: int, l: int)
    requires NoChar(name, '}') && |name| > 0 && |other| > 0
    requires forall m :: 0 <= m <= |Decimal(k)| ==> !(other <= Decimal(k)[m..])
    requires forall m :: 0 <= m < |name| ==> !IsLineTerminator(name[m])
    requires -0x8000_0000 < k < 0x8000_0000
    ensures ExpandAsWritten("${" + name + "}", [Loop(name, k), Loop(other, l)]) == Ok(Decimal(k) + Decimal(k))
  {
    OnePlaceholder("", name, "");
    assert "" + "${" + name + "}" + "" == "${" + name + "}";
    var loops := [Loop(name, k), Loop(other, l)];
    ExpandSingle("${" + name + "}", "", name, "", loops);
    SubstitutedTwo(name, other, k, l);
    assert "" + (Decimal(k) + Decimal(k)) == Decimal(k) + Decimal(k);
  }

  lemma SubstitutedTwo(name: string, other: string, k: int, l: int)
    requires |name| > 0 && |other| > 0
    requires forall m :: 0 <= m <= |Decimal(k)| ==> !(other <= Decimal(k)[m..])
    requires -0x8000_0000 < k < 0x8000_0000
    ensures Substituted(name, [Loop(name, k), Loop(other, l)]) == Ok((Decimal(k), Decimal(k) + Decimal(k)))
    ensures SubstituteAll(name, [Loop(name, k), Loop(other, l)]) == Decimal(k)
  {
    SubstitutedOne(name, k);
    ReplaceAbsent(Decimal(k), other, Decimal(l));
    DecimalParse(k);
    var loops := [Loop(name, k), Loop(other, l)];
    assert loops[..1] == [Loop(name, k)];
  }

  /** As intended the value appears once. */
  lemma ValueOnce(name: string, other: string, k: int, l: int)
    requires NoChar(name, '}') && |name| > 0 && |other| > 0
    requires forall m :: 0 <= m <= |Decimal(k)| ==> !(other <= Decimal(k)[m..])
    requires forall m :: 0 <= m < |name| ==> !IsLineTerminator(name[m])
    requires -0x8000_0000 < k < 0x8000_0000
    ensures ExpandFixed("${" + name + "}", [Loop(name, k), Loop(other, l)]) == Ok(Decimal(k))
  {
    var target := "${" + name + "}";
    OnePlaceholderIn("", name, "", target);
    var loops := [Loop(name, k), Loop(other, l)];
    SubstitutedTwo(name, other, k, l);
    DecimalParse(k);
    assert Calc(SubstituteAll(name, loops)) == Parsed(k, |Decimal(k)|);
    ExpandSingleFixed(target, "", name, "", loops);
    assert "" + Decimal(k) + "" == Decimal(k);
  }

  /** A pattern that is not in the text changes nothing; here the text is
      a decimal number and the pattern a loop name. */
  lemma {:induction false} ReplaceAbsent(s: string, pat: string, rep: string)
    requires |pat| > 0 && forall m :: 0 <= m <= |s| ==> !(pat <= s[m..])
    ensures ReplaceAll(s, pat, rep) == s
    decreases |s|
  {
    if |s| > 0 {
      assert s[0..] == s;
      forall m | 0 <= m <= |s[1..]|
        ensures !(pat <= s[1..][m..])
      {
        assert s[1..][m..] == s[m + 1..];
      }
      ReplaceAbsent(s[1..], pat, rep);
    }
  }

  /** Replacing inside pre + x + post, when the pattern starts with '$'
      and the outer texts hold none. */
  lemma {:induction false} ReplaceAround(pre: string, pat: string, rep: string, post: string)
    requires |pat| > 0 && pat[0] == '$' && NoChar(pre, '$') && NoChar(post, '$')
    ensures ReplaceAll(pre + pat + post, pat, rep) == pre + rep + post
    decreases |pre|
  {
    if |pre| > 0 {
      ReplaceAroundStep(pre, pat, rep, post);
      NoCharTail(pre, '$');
      ReplaceAround(pre[1..], pat, rep, post);
      ConsAround(pre, rep, post);
    } else {
      assert pre + pat + post == pat + post;
      ReplaceAtHead(pat, rep, post);
    }
  }

  lemma ReplaceAroundStep(pre: string, pat: string, rep: string, post: string)
    requires |pat| > 0 && pat[0] == '$' && |pre| > 0 && pre[0] != '$'
    ensures ReplaceAll(pre + pat + post, pat, rep) == [pre[0]] + ReplaceAll(pre[1..] + pat + post, pat, rep)
  {
    var s := pre + pat + post;
    assert s[0] == pre[0] && s[1..] == pre[1..] + pat + post;
    ReplaceSkip(s, pat, rep);
  }

  lemma NoCharTail(s: string, c: char)
    requires |s| > 0 && NoChar(s, c)
    ensures NoChar(s[1..], c)
  {
    assert forall m :: 0 <= m < |s[1..]| ==> s[1..][m] == s[m + 1];
  }

  lemma ConsAround(pre: string, rep: string, post: string)
    requires |pre| > 0
    ensures [pre[0]] + (pre[1..] + rep + post) == pre + rep + post
  {
    assert pre == [pre[0]] + pre[1..];
  }

  /** The pattern at the head of the text is replaced and the rest, which
      holds no '$', is kept. */
  lemma ReplaceAtHead(pat: string, rep: string, post: string)
    requires |pat| > 0 && pat[0] == '$' && NoChar(post, '$')
    ensures ReplaceAll(pat + post, pat, rep) == rep + post
  {
    assert pat <= pat + post;
    assert (pat + post)[|pat|..] == post;
    ReplaceNoDollar(post, pat, rep);
  }

  /** A text whose first character is not '$' keeps that character. */
  lemma ReplaceSkip(s: string, pat: string, rep: string)
    requires |pat| > 0 && pat[0] == '$' && |s| > 0 && s[0] != '$'
    ensures ReplaceAll(s, pat, rep) == [s[0]] + ReplaceAll(s[1..], pat, rep)
  {
    assert !(pat <= s);
  }

  lemma {:induction false} ReplaceNoDollar(s: string, pat: string, rep: string)
    requires |pat| > 0 && pat[0] == '$' && NoChar(s, '$')
    ensures ReplaceAll(s, pat, rep) == s
    decreases |s|
  {
    if |s| > 0 {
      ReplaceSkip(s, pat, rep);
      ReplaceNoDollar(s[1..], pat, rep);
      assert s == [s[0]] + s[1..];
    }
  }

  /** The corrected expansion agrees with the older replace-based one on a
      name with one placeholder for one loop. */
  lemma FixedAgreesWithReplace(pre: string, name: string, post: string, k: int)
    requires NoChar(pre, '$') && NoChar(post, '$') && NoChar(name, '}') && |name| > 0
    requires forall m :: 0 <= m < |name| ==> !IsLineTerminator(name[m])
    requires -0x8000_0000 < k < 0x8000_0000
    ensures ExpandFixed(pre + "${" + name + "}" + post, [Loop(name, k)])
            == Ok(ExpandByReplace(pre + "${" + name + "}" + post, [Loop(name, k)]))
  {
    ExpandOneLoop(pre, name, post, k);
    ReplaceOne(pre + "${" + name + "}" + post, name, k);
    ReplacePlaceholder(pre, name, post, Decimal(k));
  }

  lemma ReplacePlaceholder(pre: string, name: string, post: string, rep: string)
    requires NoChar(pre, '$') && NoChar(post, '$')
    ensures ReplaceAll(pre + "${" + name + "}" + post, "${" + name + "}", rep) == pre + rep + post
  {
    var pat := "${" + name + "}";
    assert pre + "${" + name + "}" + post == pre + pat + post;
    ReplaceAround(pre, pat, rep, post);
  }

  lemma ReplaceOne(target: string, name: string, k: int)
    ensures ExpandByReplace(target, [Loop(name, k)]) == ReplaceAll(target, "${" + name + "}", Decimal(k))
  {
    var loops := [Loop(name, k)];
    assert loops[..0] == [];
  }

  // ------------------------------------------------------- loop nodes

  /** A loop node of `parseComponents`: the loop is pushed with counter 0,
      the body is parsed while the counter is below `count`, the counter is
      incremented after each pass, and the loop is popped. The result lists
      the loop stack seen by each pass over the body. */
  method LoopPasses(stack: seq<Loop>, name: string, count: int) returns (passes: seq<seq<Loop>>, after: seq<Loop>)
    ensures after == stack
    ensures |passes| == if count > 0 then count else 0
    ensures forall p :: 0 <= p < |passes| ==> passes[p] == stack + [Loop(name, p)]
  {
    var st := stack + [Loop(name, 0)];
    passes := [];
    while st[|st| - 1].i < count
      invariant |st| == |stack| + 1 && st[..|stack|] == stack
      invariant st[|st| - 1] == Loop(name, |passes|)
      invariant count > 0 ==> |passes| <= count
      invariant count <= 0 ==> |passes| == 0
      invariant forall p :: 0 <= p < |passes| ==> passes[p] == stack + [Loop(name, p)]
      decreases count - st[|st| - 1].i
    {
      passes := passes + [st];
      st := st[..|stack|] + [Loop(name, st[|st| - 1].i + 1)];
    }
    after := st[..|stack|];
  }
}
