/**
 * A rule violation with a message template: `${name}` placeholders are
 * replaced by the violation's variable, method, class or package name, or by
 * the value of the rule property of that name; placeholders that do not
 * resolve, and a `${` that is never closed, stay as they are.
 */
module RuleViolation {
  import opened Wrappers
  import opened AstDocuments

  /** The rule as the violation sees it: the text of each property's value, by property name. */
  datatype Rule = Rule(name: string, propertyText: map<string, string>)

  /** What a placeholder can resolve against. */
  datatype Env = Env(variableName: string, methodName: string, className: string, packageName: string, rule: Rule)

  const BuiltinNames: set<string> := {"variableName", "methodName", "className", "packageName"}

  /**
   * `getVariableValue`: the four built-in names resolve to the violation's
   * own fields, ahead of any property of the same name; any other name to its
   * property's text; None (Java null) when there is no such property.
   */
  function VariableValue(env: Env, name: string): (r: Option<string>)
    ensures r.Some? <==> name in BuiltinNames || name in env.rule.propertyText
    ensures name == "variableName" ==> r == Some(env.variableName)
    ensures name == "methodName" ==> r == Some(env.methodName)
    ensures name == "className" ==> r == Some(env.className)
    ensures name == "packageName" ==> r == Some(env.packageName)
    ensures name !in BuiltinNames && r.Some? ==> r.value == env.rule.propertyText[name]
  {
    if name == "variableName" then Some(env.variableName)
    else if name == "methodName" then Some(env.methodName)
    else if name == "className" then Some(env.className)
    else if name == "packageName" then Some(env.packageName)
    else if name in env.rule.propertyText then Some(env.rule.propertyText[name])
    else None
  }

  /** How placeholder names resolve; None is Java null. */
  type Lookup = string -> Option<string>

  /** The resolution `getVariableValue` performs for one violation. */
  function Resolver(env: Env): (lookup: Lookup)
    ensures forall name :: lookup(name) == VariableValue(env, name)
  {
    name => VariableValue(env, name)
  }

  // ---------------------------------------------------------------------------
  // Searching

  /** `${` starts at index `k` of `s`. */
  predicate OpenAt(s: string, k: int)
  {
    0 <= k && k + 1 < |s| && s[k] == '$' && s[k + 1] == '{'
  }

  /** `}` is at index `k` of `s`. */
  predicate CloseAt(s: string, k: int)
  {
    0 <= k < |s| && s[k] == '}'
  }

  /** `contains("${")`. */
  predicate ContainsOpen(s: string)
  {
    exists k :: 0 <= k < |s| && OpenAt(s, k)
  }

  /** `indexOf("${", from)`: the first `${` at or after `from`, or -1. */
  function FindOpen(s: string, from: nat): (r: int)
    ensures r == -1 || (from <= r && OpenAt(s, r))
    decreases |s| - from
  {
    if from + 1 >= |s| then -1
    else if s[from] == '$' && s[from + 1] == '{' then from
    else FindOpen(s, from + 1)
  }

  /** `indexOf("}", from)`: the first `}` at or after `from`, or -1. */
  function FindClose(s: string, from: nat): (r: int)
    ensures r == -1 || (from <= r && CloseAt(s, r))
    decreases |s| - from
  {
    if from >= |s| then -1
    else if s[from] == '}' then from
    else FindClose(s, from + 1)
  }

  /** No `${` is skipped: there is none between `from` and the one found (or the end). */
  lemma {:induction false} FindOpenIsFirst(s: string, from: nat)
    ensures forall k :: from <= k && (FindOpen(s, from) == -1 || k < FindOpen(s, from)) ==> !OpenAt(s, k)
    decreases |s| - from
  {
    if from + 1 < |s| && !(s[from] == '$' && s[from + 1] == '{') {
      FindOpenIsFirst(s, from + 1);
    }
  }

  /** No `}` is skipped: there is none between `from` and the one found (or the end). */
  lemma {:induction false} FindCloseIsFirst(s: string, from: nat)
    ensures forall k :: from <= k && (FindClose(s, from) == -1 || k < FindClose(s, from)) ==> !CloseAt(s, k)
    decreases |s| - from
  {
    if from < |s| && s[from] != '}' {
      FindCloseIsFirst(s, from + 1);
    }
  }

  /** Searching a suffix for `}` finds what searching the whole text from the suffix's start finds. */
  lemma FindCloseShift(s: string, offset: nat, k: nat)
    requires offset <= |s|
    ensures FindClose(s[offset..], k) == (if FindClose(s, offset + k) < 0 then -1 else FindClose(s, offset + k) - offset)
  {
    var t := s[offset..];
    var a, b := FindClose(t, k), FindClose(s, offset + k);
    FindCloseIsFirst(t, k);
    FindCloseIsFirst(s, offset + k);
    if a >= 0 { assert CloseAt(s, offset + a); }
    if b >= 0 { assert CloseAt(t, b - offset); }
  }

  // ---------------------------------------------------------------------------
  // The expansion as specified

  /**
   * The reference meaning of placeholder expansion, read left to right: a
   * `${` with no `}` after it keeps the rest; a `${name}` that resolves
   * becomes its value, which is not read again; one that does not resolve
   * keeps its `$` and reading goes on with the `{`.
   */
  function Substituted(lookup: Lookup, s: string): string
    decreases |s|
  {
    if |s| < 2 then s
    else if s[0] == '$' && s[1] == '{' then
      var j := FindClose(s, 2);
      if j < 0 then s
      else
        match lookup(s[2..j])
        case Some(v) => v + Substituted(lookup, s[j + 1..])
        case None => [s[0]] + Substituted(lookup, s[1..])
    else [s[0]] + Substituted(lookup, s[1..])
  }

  /** Text with no `${` starting in its first `m` characters is kept, and reading goes on after it. */
  lemma {:induction false} PrefixKept(lookup: Lookup, s: string, m: nat)
    requires m <= |s|
    requires forall k :: 0 <= k < m ==> !OpenAt(s, k)
    ensures Substituted(lookup, s) == s[..m] + Substituted(lookup, s[m..])
    decreases m
  {
    if m > 0 && |s| >= 2 {
      assert !OpenAt(s, 0);
      var t := s[1..];
      forall k | 0 <= k < m - 1 ensures !OpenAt(t, k) {
        assert !OpenAt(s, k + 1);
      }
      PrefixKept(lookup, t, m - 1);
      assert t[m - 1..] == s[m..];
      assert [s[0]] + t[..m - 1] == s[..m];
    } else if m > 0 {
      assert s[..m] == s && s[m..] == [];
    }
  }

  /** Text with no `}` is kept whole. */
  lemma {:induction false} NoCloseKept(lookup: Lookup, s: string)
    requires forall k :: 0 <= k < |s| ==> s[k] != '}'
    ensures Substituted(lookup, s) == s
    decreases |s|
  {
    if |s| >= 2 {
      if s[0] == '$' && s[1] == '{' {
        assert !CloseAt(s, FindClose(s, 2));
      } else {
        NoCloseKept(lookup, s[1..]);
        assert [s[0]] + s[1..] == s;
      }
    }
  }

  /** What one search of the scan finds from `from`. */
  datatype Scan =
    | Done                                    // no further `${`
    | Pass(at: nat)                           // `${` at `at` that is unclosed or does not resolve
    | Replace(at: nat, end: nat, value: string) // `${name}` at `at..end` that resolves to `value`

  /** One step of the scan: the next `${`, the first `}` after it, and the name between. */
  function NextPlaceholder(lookup: Lookup, buf: string, from: nat): (r: Scan)
    ensures r.Pass? ==> from <= r.at && OpenAt(buf, r.at)
    ensures r.Replace? ==> && from <= r.at && r.at + 2 <= r.end && OpenAt(buf, r.at) && CloseAt(buf, r.end)
                           && lookup(buf[r.at + 2..r.end]) == Some(r.value)
  {
    var i := FindOpen(buf, from);
    if i < 0 then Done
    else
      var j := FindClose(buf, i);
      if j < 0 then Pass(i)
      else
        match lookup(buf[i + 2..j])
        case None => Pass(i)
        case Some(v) => Replace(i, j, v)
  }

  /** The reference expansion reads up to the next `${` unchanged. */
  lemma SubstitutedUpToOpen(lookup: Lookup, buf: string, from: nat)
    requires from <= |buf|
    ensures var i := FindOpen(buf, from);
            && (i < 0 ==> Substituted(lookup, buf[from..]) == buf[from..])
            && (i >= 0 ==> Substituted(lookup, buf[from..]) == buf[from..i] + Substituted(lookup, buf[i..]))
  {
    var s := buf[from..];
    var i := FindOpen(buf, from);
    FindOpenIsFirst(buf, from);
    var m := if i < 0 then |s| else i - from;
    forall k | 0 <= k < m ensures !OpenAt(s, k) {
      assert !OpenAt(buf, from + k);
    }
    PrefixKept(lookup, s, m);
    assert s[..m] == buf[from..from + m] && s[m..] == buf[from + m..];
  }

  /** At an unclosed `${` the reference expansion keeps the rest. */
  lemma SubstitutedUnclosedStep(lookup: Lookup, buf: string, from: nat, i: nat, j: int)
    requires from <= i && OpenAt(buf, i) && FindClose(buf, i) == j && j < 0
    requires Substituted(lookup, buf[from..]) == buf[from..i] + Substituted(lookup, buf[i..])
    ensures Substituted(lookup, buf[from..]) == buf[from..i + 1] + Substituted(lookup, buf[i + 1..])
  {
    UnclosedRestKept(lookup, buf, i, j);
    assert Substituted(lookup, buf[from..]) == buf[from..] by {
      assert buf[from..i] + buf[i..] == buf[from..];
    }
    assert buf[from..i + 1] + buf[i + 1..] == buf[from..];
  }

  /** After an unclosed `${` the reference expansion keeps everything, from the `$` and from the `{`. */
  lemma UnclosedRestKept(lookup: Lookup, buf: string, i: nat, j: int)
    requires OpenAt(buf, i) && FindClose(buf, i) == j && j < 0
    ensures Substituted(lookup, buf[i..]) == buf[i..]
    ensures Substituted(lookup, buf[i + 1..]) == buf[i + 1..]
  {
    SubstitutedAtOpen(lookup, buf, i, j);
    var t := buf[i + 1..];
    FindCloseIsFirst(buf, i);
    forall k | 0 <= k < |t| ensures t[k] != '}' {
      assert !CloseAt(buf, i + 1 + k);
    }
    NoCloseKept(lookup, t);
  }

  /** At a `${name}` whose name does not resolve, the reference expansion keeps the `$`. */
  lemma SubstitutedUnresolvedStep(lookup: Lookup, buf: string, from: nat, i: nat, j: nat)
    requires from <= i && OpenAt(buf, i) && FindClose(buf, i) == j
    requires lookup(buf[i + 2..j]).None?
    requires Substituted(lookup, buf[from..]) == buf[from..i] + Substituted(lookup, buf[i..])
    ensures Substituted(lookup, buf[from..]) == buf[from..i + 1] + Substituted(lookup, buf[i + 1..])
  {
    UnresolvedAtOpen(lookup, buf, i, j);
    var rest := Substituted(lookup, buf[i + 1..]);
    assert buf[from..i + 1] == buf[from..i] + "$";
    Assoc(buf[from..i], "$", rest);
  }

  /** A `${name}` whose name does not resolve keeps its `$`, and reading goes on with the `{`. */
  lemma UnresolvedAtOpen(lookup: Lookup, buf: string, i: nat, j: nat)
    requires OpenAt(buf, i) && FindClose(buf, i) == j
    requires lookup(buf[i + 2..j]).None?
    ensures Substituted(lookup, buf[i..]) == "$" + Substituted(lookup, buf[i + 1..])
  {
    SubstitutedAtOpen(lookup, buf, i, j);
  }

  /** At a `${name}` that resolves, the reference expansion inserts the value. */
  lemma SubstitutedReplaceStep(lookup: Lookup, buf: string, from: nat, i: nat, j: nat, v: string)
    requires from <= i && OpenAt(buf, i) && FindClose(buf, i) == j
    requires lookup(buf[i + 2..j]) == Some(v)
    requires Substituted(lookup, buf[from..]) == buf[from..i] + Substituted(lookup, buf[i..])
    ensures Substituted(lookup, buf[from..]) == buf[from..i] + v + Substituted(lookup, buf[j + 1..])
  {
    SubstitutedAtOpen(lookup, buf, i, j);
    Assoc(buf[from..i], v, Substituted(lookup, buf[j + 1..]));
  }

  lemma Assoc(a: string, b: string, c: string)
    ensures a + (b + c) == a + b + c
  {
  }

  /** The reference expansion of text that starts with a placeholder. */
  lemma SubstitutedAtOpen(lookup: Lookup, buf: string, i: nat, j: int)
    requires OpenAt(buf, i) && FindClose(buf, i) == j
    ensures Substituted(lookup, buf[i..]) ==
              if j < 0 then buf[i..]
              else match lookup(buf[i + 2..j])
                   case Some(v) => v + Substituted(lookup, buf[j + 1..])
                   case None => "$" + Substituted(lookup, buf[i + 1..])
  {
    var t := buf[i..];
    FindCloseShift(buf, i, 2);
    assert FindClose(buf, i) == FindClose(buf, i + 2);
    assert t[0] == '$' && t[1] == '{' && t[1..] == buf[i + 1..];
    if j >= 0 {
      assert FindClose(t, 2) == j - i;
      assert t[2..j - i] == buf[i + 2..j];
      assert t[j - i + 1..] == buf[j + 1..];
    } else {
      assert FindClose(t, 2) < 0;
    }
  }

  /** Passing over a placeholder keeps what the reference expansion yields for the whole buffer. */
  lemma PassPreserves(lookup: Lookup, buf: string, from: nat, i: nat, j: int)
    requires from <= |buf| && FindOpen(buf, from) == i && FindClose(buf, i) == j
    requires j < 0 || lookup(buf[i + 2..j]).None?
    ensures i + 1 <= |buf|
    ensures buf[..from] + Substituted(lookup, buf[from..]) == buf[..i + 1] + Substituted(lookup, buf[i + 1..])
  {
    var rest := Substituted(lookup, buf[i + 1..]);
    SubstitutedUpToOpen(lookup, buf, from);
    if j < 0 {
      SubstitutedUnclosedStep(lookup, buf, from, i, j);
    } else {
      SubstitutedUnresolvedStep(lookup, buf, from, i, j);
    }
    assert buf[..i + 1] == buf[..from] + buf[from..i + 1];
    Assoc(buf[..from], buf[from..i + 1], rest);
  }

  /** Replacing a placeholder in place keeps what the reference expansion yields for the whole buffer. */
  lemma ReplacePreserves(lookup: Lookup, buf: string, from: nat, i: nat, j: nat, v: string)
    requires from <= |buf| && FindOpen(buf, from) == i && FindClose(buf, i) == j
    requires lookup(buf[i + 2..j]) == Some(v)
    ensures var next := buf[..i] + v + buf[j + 1..];
            && i + |v| <= |next| && |next| - (i + |v|) < |buf| - from
            && buf[..from] + Substituted(lookup, buf[from..]) == next[..i + |v|] + Substituted(lookup, next[i + |v|..])
  {
    var next := buf[..i] + v + buf[j + 1..];
    var rest := Substituted(lookup, buf[j + 1..]);
    SubstitutedUpToOpen(lookup, buf, from);
    SubstitutedReplaceStep(lookup, buf, from, i, j, v);
    var kept := buf[from..i] + v;
    assert Substituted(lookup, buf[from..]) == kept + rest;
    Spliced(buf, from, i, j, v);
    Assoc(buf[..from], kept, rest);
  }

  /** The buffer after a replacement, split at the resume point. */
  lemma Spliced(buf: string, from: nat, i: nat, j: nat, v: string)
    requires from <= i < j < |buf|
    ensures var next := buf[..i] + v + buf[j + 1..];
            && next[..i + |v|] == buf[..from] + (buf[from..i] + v)
            && next[i + |v|..] == buf[j + 1..]
  {
    var next := buf[..i] + v + buf[j + 1..];
    assert buf[..i] == buf[..from] + buf[from..i];
  }

  /** When no placeholder is left, the reference expansion of the whole buffer is the buffer. */
  lemma DonePreserves(lookup: Lookup, buf: string, from: nat)
    requires from <= |buf| && FindOpen(buf, from) < 0
    ensures buf[..from] + Substituted(lookup, buf[from..]) == buf
  {
    SubstitutedUpToOpen(lookup, buf, from);
    assert buf[..from] + buf[from..] == buf;
  }

  /**
   * `expandVariables` (with the resume index corrected): a message without
   * `${` comes back as it is; otherwise the buffer is scanned and edited in
   * place.
   */
  method ExpandVariables(lookup: Lookup, message: string) returns (r: string)
    ensures r == Substituted(lookup, message)
    ensures !ContainsOpen(message) ==> r == message
  {
    if FindOpen(message, 0) < 0 {
      SubstitutedUpToOpen(lookup, message, 0);
      assert message[0..] == message;
      return message;
    }
    var buf := message;
    var from: nat := 0;
    assert buf[..0] == [] && buf[0..] == message;
    while true
      invariant from <= |buf|
      invariant buf[..from] + Substituted(lookup, buf[from..]) == Substituted(lookup, message)
      decreases |buf| - from
    {
      var startIndex := FindOpen(buf, from);
      if startIndex < 0 {
        DonePreserves(lookup, buf, from);
        break;
      }
      var endIndex := FindClose(buf, startIndex);
      if endIndex >= 0 && lookup(buf[startIndex + 2..endIndex]).Some? {
        var variableValue := lookup(buf[startIndex + 2..endIndex]).value;
        ReplacePreserves(lookup, buf, from, startIndex, endIndex, variableValue);
        buf := buf[..startIndex] + variableValue + buf[endIndex + 1..];
        from := startIndex + |variableValue|;
      } else {
        PassPreserves(lookup, buf, from, startIndex, endIndex);
        from := startIndex + 1;
      }
    }
    r := buf;
  }

  // ---------------------------------------------------------------------------
  // What the expansion promises

  /** A placeholder that resolves is replaced by its value, which is never read for placeholders. */
  lemma ResolvedPlaceholderReplaced(lookup: Lookup, pre: string, name: string, post: string, v: string)
    requires !ContainsOpen(pre) && '}' !in name
    requires lookup(name) == Some(v)
    ensures Substituted(lookup, pre + "${" + name + "}" + post) == pre + v + Substituted(lookup, post)
  {
    var s := pre + "${" + name + "}" + post;
    var i, j := |pre|, |pre| + 2 + |name|;
    PlaceholderShape(pre, name, post);
    PrefixKept(lookup, s, i);
    assert lookup(s[i + 2..j]) == Some(v);
    SubstitutedAtOpen(lookup, s, i, j);
    assert Substituted(lookup, s[i..]) == v + Substituted(lookup, post);
    Assoc(pre, v, Substituted(lookup, post));
  }

  /** A placeholder that does not resolve stays verbatim; reading goes on after it. */
  lemma UnresolvedPlaceholderKept(lookup: Lookup, pre: string, name: string, post: string)
    requires !ContainsOpen(pre) && '}' !in name && !ContainsOpen(name)
    requires lookup(name).None?
    ensures Substituted(lookup, pre + "${" + name + "}" + post) == pre + "${" + name + "}" + Substituted(lookup, post)
  {
    var s := pre + "${" + name + "}" + post;
    var i, j := |pre|, |pre| + 2 + |name|;
    var tail := "{" + name + "}" + post;
    PlaceholderShape(pre, name, post);
    PrefixKept(lookup, s, i);
    assert lookup(s[i + 2..j]).None?;
    SubstitutedAtOpen(lookup, s, i, j);
    BracedNameKept(lookup, name, post);
    assert Substituted(lookup, s[i..]) == "$" + ("{" + name + "}" + Substituted(lookup, post));
    Reassembled(pre, name, Substituted(lookup, post));
  }

  lemma Reassembled(pre: string, name: string, rest: string)
    ensures pre + ("$" + ("{" + name + "}" + rest)) == pre + "${" + name + "}" + rest
  {
    assert "$" + ("{" + name + "}" + rest) == "${" + name + "}" + rest;
  }

  /** `{name}` with no `${` in the name is read over unchanged. */
  lemma BracedNameKept(lookup: Lookup, name: string, post: string)
    requires !ContainsOpen(name)
    ensures Substituted(lookup, "{" + name + "}" + post) == "{" + name + "}" + Substituted(lookup, post)
  {
    var t := "{" + name + "}" + post;
    var m := |name| + 2;
    assert t[..m] == "{" + name + "}" && t[m..] == post;
    forall k | 0 <= k < m ensures !OpenAt(t, k) {
      if 1 <= k < |name| {
        assert !OpenAt(name, k - 1);
      }
    }
    PrefixKept(lookup, t, m);
  }

  /** In `pre + "${" + name + "}" + post`, the first placeholder is exactly `${name}`. */
  lemma PlaceholderShape(pre: string, name: string, post: string)
    requires !ContainsOpen(pre) && '}' !in name
    ensures var s := pre + "${" + name + "}" + post;
            var i, j := |pre|, |pre| + 2 + |name|;
            && OpenAt(s, i) && FindClose(s, i) == j
            && (forall k :: 0 <= k < i ==> !OpenAt(s, k))
            && s[i + 2..j] == name && s[..i] == pre && s[j + 1..] == post && s[i..] == "${" + name + "}" + post
            && s[i + 1..] == "{" + name + "}" + post
  {
    var s := pre + "${" + name + "}" + post;
    var i := |pre|;
    var j := |pre| + 2 + |name|;
    assert s == pre + ("${" + name + "}" + post);
    var rest := "${" + name + "}" + post;
    assert s[..i] == pre && s[i..] == rest;
    assert rest[0] == '$' && rest[1] == '{' && rest[2 + |name|] == '}';
    assert rest[2..2 + |name|] == name && rest[3 + |name|..] == post;
    assert rest[1..] == "{" + name + "}" + post;
    forall k | 0 <= k < i ensures !OpenAt(s, k) {
      if k + 1 < i {
        assert !OpenAt(pre, k);
      }
    }
    forall k | i <= k < j ensures !CloseAt(s, k) {
      if k >= i + 2 { assert rest[k - i] == name[k - i - 2]; }
    }
    FindCloseIsFirst(s, i);
    assert CloseAt(s, j);
  }

  /** A `${` with no `}` after it leaves the rest of the message as it is. */
  lemma UnclosedPlaceholderKept(lookup: Lookup, pre: string, post: string)
    requires !ContainsOpen(pre) && '}' !in post
    ensures Substituted(lookup, pre + "${" + post) == pre + "${" + post
  {
    var s := pre + "${" + post;
    var i := |pre|;
    assert s[..i] == pre && s[i..] == "${" + post;
    forall k | 0 <= k < i ensures !OpenAt(s, k) {
      if k + 1 < i {
        assert !OpenAt(pre, k);
      }
    }
    PrefixKept(lookup, s, i);
    var t := s[i..];
    forall k | 0 <= k < |t| ensures t[k] != '}' {
      if k >= 2 { assert t[k] == post[k - 2]; }
    }
    NoCloseKept(lookup, t);
  }

  // ---------------------------------------------------------------------------
  // The expansion as written

  /**
   * The scan exactly as written: after every placeholder, replaced or not, the
   * next search starts one past the placeholder's `$`, so it runs over the
   * inserted value and, after an empty value, past the first character that
   * followed the placeholder. The scan need not end, so it is given `fuel`
   * steps; None when they run out.
   */
  function ExpandAsWritten(lookup: Lookup, buf: string, from: nat, fuel: nat): Option<string>
    decreases fuel
  {
    if fuel == 0 then None
    else
      match NextPlaceholder(lookup, buf, from)
      case Done => Some(buf)
      case Pass(i) => ExpandAsWritten(lookup, buf, i + 1, fuel - 1)
      case Replace(i, j, v) => ExpandAsWritten(lookup, buf[..i] + v + buf[j + 1..], i + 1, fuel - 1)
  }

  /** The step count only bounds the scan: once it ends, more steps give the same text. */
  lemma {:induction false} MoreStepsSameResult(lookup: Lookup, buf: string, from: nat, fuel: nat, more: nat)
    requires fuel <= more && ExpandAsWritten(lookup, buf, from, fuel).Some?
    ensures ExpandAsWritten(lookup, buf, from, more) == ExpandAsWritten(lookup, buf, from, fuel)
    decreases fuel, 1
  {
    match NextPlaceholder(lookup, buf, from)
    case Done =>
      assert ExpandAsWritten(lookup, buf, from, fuel) == Some(buf);
    case Pass(i) =>
      MoreStepsPass(lookup, buf, from, fuel, more, i);
    case Replace(i, j, v) =>
      MoreStepsReplace(lookup, buf, from, fuel, more, i, j, v);
  }

  /** `MoreStepsSameResult` when the next `${` is skipped. */
  lemma {:induction false} MoreStepsPass(lookup: Lookup, buf: string, from: nat, fuel: nat, more: nat, i: nat)
    requires fuel <= more && ExpandAsWritten(lookup, buf, from, fuel).Some?
    requires NextPlaceholder(lookup, buf, from) == Pass(i)
    ensures ExpandAsWritten(lookup, buf, from, more) == ExpandAsWritten(lookup, buf, from, fuel)
    decreases fuel, 0
  {
    var resume, fewer, rest := i + 1, fuel - 1, more - 1;
    assert ExpandAsWritten(lookup, buf, from, fuel) == ExpandAsWritten(lookup, buf, resume, fewer);
    assert ExpandAsWritten(lookup, buf, from, more) == ExpandAsWritten(lookup, buf, resume, rest);
    MoreStepsSameResult(lookup, buf, resume, fewer, rest);
  }

  /** `MoreStepsSameResult` when the next placeholder is replaced. */
  lemma {:induction false} MoreStepsReplace(lookup: Lookup, buf: string, from: nat, fuel: nat, more: nat, i: nat, j: nat, v: string)
    requires fuel <= more && ExpandAsWritten(lookup, buf, from, fuel).Some?
    requires NextPlaceholder(lookup, buf, from) == Replace(i, j, v)
    ensures ExpandAsWritten(lookup, buf, from, more) == ExpandAsWritten(lookup, buf, from, fuel)
    decreases fuel, 0
  {
    var next, resume, fewer, rest := buf[..i] + v + buf[j + 1..], i + 1, fuel - 1, more - 1;
    assert ExpandAsWritten(lookup, buf, from, fuel) == ExpandAsWritten(lookup, next, resume, fewer);
    assert ExpandAsWritten(lookup, buf, from, more) == ExpandAsWritten(lookup, next, resume, rest);
    MoreStepsSameResult(lookup, next, resume, fewer, rest);
  }

  /** The `${` the search finds is the first one at or after where it starts. */
  lemma FindOpenAt(s: string, from: nat, i: nat)
    requires from <= i && OpenAt(s, i)
    requires forall k :: from <= k < i ==> !OpenAt(s, k)
    ensures FindOpen(s, from) == i
  {
    FindOpenIsFirst(s, from);
  }

  /** With no `$` from `from` on, the search for `${` fails. */
  lemma FindOpenNone(s: string, from: nat)
    requires forall k :: from <= k < |s| ==> s[k] != '$'
    ensures FindOpen(s, from) == -1
  {
  }

  /** A scan step that starts inside a `${`-free prefix stops at the placeholder after it. */
  lemma NextPlaceholderAt(lookup: Lookup, pre: string, name: string, post: string, from: nat)
    requires !ContainsOpen(pre) && '}' !in name && from <= |pre|
    ensures var s := pre + "${" + name + "}" + post;
            NextPlaceholder(lookup, s, from) ==
              match lookup(name)
              case Some(v) => Replace(|pre|, |pre| + 2 + |name|, v)
              case None => Pass(|pre|)
  {
    var s := pre + "${" + name + "}" + post;
    PlaceholderShape(pre, name, post);
    FindOpenAt(s, from, |pre|);
  }

  /** One step of the scan as written over a placeholder that resolves. */
  lemma AsWrittenReplaceStep(lookup: Lookup, buf: string, from: nat, fuel: nat, i: nat, j: nat, v: string)
    requires fuel > 0 && NextPlaceholder(lookup, buf, from) == Replace(i, j, v)
    ensures ExpandAsWritten(lookup, buf, from, fuel) == ExpandAsWritten(lookup, buf[..i] + v + buf[j + 1..], i + 1, fuel - 1)
  {
  }

  /**
   * An empty value swallows the `$` of an adjacent placeholder: with an empty
   * variable name, `${variableName}${methodName}` keeps `${methodName}`
   * unexpanded, where the reference expansion yields the method name.
   */
  lemma EmptyValueSkipsNextPlaceholder()
    ensures var lookup := Resolver(Env("", "m", "", "", Rule("r", map[])));
            var message := "${variableName}${methodName}";
            && ExpandAsWritten(lookup, message, 0, 3) == Some("${methodName}")
            && Substituted(lookup, message) == "m"
  {
    var lookup := Resolver(Env("", "m", "", "", Rule("r", map[])));
    assert lookup("variableName") == Some("");
    assert lookup("methodName") == Some("m");
    EmptyValueSkips(lookup, "variableName", "methodName", "m");
    Spelled();
  }

  /** The message of the example, assembled from its parts. */
  lemma Spelled()
    ensures "${" + "variableName" + "}" + ("${" + "methodName" + "}") == "${variableName}${methodName}"
    ensures "${" + "methodName" + "}" == "${methodName}"
  {
  }

  /** The same for any two names that contain neither `$` nor `}`, the first resolving to empty text. */
  lemma EmptyValueSkips(lookup: Lookup, first: string, second: string, v: string)
    requires '$' !in first && '}' !in first && '$' !in second && '}' !in second
    requires lookup(first) == Some("") && lookup(second) == Some(v)
    ensures var after := "${" + second + "}";
            var message := "${" + first + "}" + after;
            && ExpandAsWritten(lookup, message, 0, 3) == Some(after)
            && Substituted(lookup, message) == v
  {
    var after := "${" + second + "}";
    EmptyValueFirstStep(lookup, first, after);
    SecondPlaceholderMissed(lookup, second);
    EmptyThenResolved(lookup, first, second, v);
  }

  /** The scan as written replaces the first placeholder by nothing and resumes one character further. */
  lemma EmptyValueFirstStep(lookup: Lookup, first: string, after: string)
    requires '}' !in first && lookup(first) == Some("")
    ensures ExpandAsWritten(lookup, "${" + first + "}" + after, 0, 3) == ExpandAsWritten(lookup, after, 1, 2)
  {
    var message := "${" + first + "}" + after;
    assert "" + "${" + first + "}" + after == message;
    NextPlaceholderAt(lookup, "", first, after, 0);
    var j := 2 + |first|;
    assert NextPlaceholder(lookup, message, 0) == Replace(0, j, "");
    AsWrittenReplaceStep(lookup, message, 0, 3, 0, j, "");
    assert message[..0] + "" + message[j + 1..] == after;
  }

  /** From one past its `$`, the scan as written finds no placeholder in `${second}`. */
  lemma SecondPlaceholderMissed(lookup: Lookup, second: string)
    requires '$' !in second
    ensures ExpandAsWritten(lookup, "${" + second + "}", 1, 2) == Some("${" + second + "}")
  {
    var after := "${" + second + "}";
    forall k | 1 <= k < |after| ensures after[k] != '$' {
      if 2 <= k < |after| - 1 {
        assert after[k] == second[k - 2];
      }
    }
    FindOpenNone(after, 1);
    assert NextPlaceholder(lookup, after, 1) == Done;
  }

  /** The reference expansion of two adjacent placeholders, the first resolving to empty text. */
  lemma EmptyThenResolved(lookup: Lookup, first: string, second: string, v: string)
    requires '}' !in first && '}' !in second
    requires lookup(first) == Some("") && lookup(second) == Some(v)
    ensures Substituted(lookup, "${" + first + "}" + ("${" + second + "}")) == v
  {
    var after := "${" + second + "}";
    assert "" + "${" + first + "}" + after == "${" + first + "}" + after;
    assert "" + "${" + second + "}" + "" == after;
    ResolvedPlaceholderReplaced(lookup, "", first, after, "");
    ResolvedPlaceholderReplaced(lookup, "", second, "", v);
    assert Substituted(lookup, "") == "";
  }

  /**
   * Inserted values are read again: a property `p` whose text is `x${p}`
   * makes the message `${p}` grow forever, so no amount of fuel finishes it;
   * the reference expansion yields `x${p}`.
   */
  lemma SelfReferenceNeverEnds(fuel: nat)
    ensures var lookup := Resolver(Env("", "", "", "", Rule("r", map["p" := "x${p}"])));
            && ExpandAsWritten(lookup, "${p}", 0, fuel) == None
            && Substituted(lookup, "${p}") == "x${p}"
  {
    var lookup := Resolver(Env("", "", "", "", Rule("r", map["p" := "x${p}"])));
    assert lookup("p") == Some("x${p}");
    assert "" + "${" + "p" + "}" + "" == "${p}";
    ResolvedPlaceholderReplaced(lookup, "", "p", "", "x${p}");
    assert Substituted(lookup, "") == "";
    SelfReferenceGrows(lookup, [], fuel);
    assert [] + "${p}" == "${p}";
  }

  /** Whatever `${`-free text the scan has left behind, `${p}` after it is never finished. */
  lemma {:induction false} SelfReferenceGrows(lookup: Lookup, pre: string, fuel: nat)
    requires lookup("p") == Some("x${p}") && !ContainsOpen(pre)
    ensures ExpandAsWritten(lookup, pre + "${p}", |pre|, fuel) == None
    decreases fuel
  {
    if fuel > 0 {
      SelfReferenceStep(lookup, pre, fuel);
      NoOpenExtended(pre, 'x');
      SelfReferenceGrows(lookup, pre + "x", fuel - 1);
    }
  }

  /** Appending a character other than `{` to `${`-free text keeps it `${`-free. */
  lemma NoOpenExtended(pre: string, c: char)
    requires !ContainsOpen(pre) && c != '{'
    ensures !ContainsOpen(pre + [c])
  {
    var longer := pre + [c];
    forall k | 0 <= k < |longer| ensures !OpenAt(longer, k) {
      if k + 1 < |pre| {
        assert !OpenAt(pre, k);
      }
    }
  }

  /** One round of the self-referencing scan puts one more `x` before `${p}` and resumes after it. */
  lemma SelfReferenceStep(lookup: Lookup, pre: string, fuel: nat)
    requires lookup("p") == Some("x${p}") && !ContainsOpen(pre) && fuel > 0
    ensures ExpandAsWritten(lookup, pre + "${p}", |pre|, fuel) == ExpandAsWritten(lookup, (pre + "x") + "${p}", |pre + "x"|, fuel - 1)
  {
    var n := |pre|;
    var buf := pre + "${p}";
    assert buf == pre + "${" + "p" + "}" + "";
    NextPlaceholderAt(lookup, pre, "p", "", n);
    AsWrittenReplaceStep(lookup, buf, n, fuel, n, n + 3, "x${p}");
    assert buf[..n] == pre && buf[n + 4..] == [];
    assert pre + "x${p}" + [] == (pre + "x") + "${p}";
  }

  /**
   * Inserted values are searched for placeholders, which the reference
   * expansion leaves alone: a property `desc` with text `in ${methodName}`
   * and the method name `m` make the message `${desc}` come out as `in m`
   * as written, and as `in ${methodName}` from the reference expansion.
   */
  lemma InsertedPlaceholderExpanded()
    ensures var lookup := Resolver(Env("", "m", "", "", Rule("r", map["desc" := "in ${methodName}"])));
            && ExpandAsWritten(lookup, "${desc}", 0, 5) == Some("in m")
            && Substituted(lookup, "${desc}") == "in ${methodName}"
  {
    var lookup := Resolver(Env("", "m", "", "", Rule("r", map["desc" := "in ${methodName}"])));
    assert lookup("desc") == Some("in ${methodName}");
    assert lookup("methodName") == Some("m");
    InsertedValueReadAgain(lookup);
    InsertedValueKept(lookup);
  }

  /** The first round replaces `${desc}` and resumes at the second character of the value. */
  lemma InsertedValueReadAgain(lookup: Lookup)
    requires lookup("desc") == Some("in ${methodName}") && lookup("methodName") == Some("m")
    ensures ExpandAsWritten(lookup, "${desc}", 0, 5) == Some("in m")
  {
    assert "" + "${" + "desc" + "}" + "" == "${desc}";
    NextPlaceholderAt(lookup, "", "desc", "", 0);
    AsWrittenReplaceStep(lookup, "${desc}", 0, 5, 0, 6, "in ${methodName}");
    assert "${desc}"[..0] + "in ${methodName}" + "${desc}"[7..] == "in ${methodName}";
    PlaceholderInValueExpanded(lookup);
  }

  /** The second round finds `${methodName}` inside the inserted value and replaces it. */
  lemma PlaceholderInValueExpanded(lookup: Lookup)
    requires lookup("methodName") == Some("m")
    ensures ExpandAsWritten(lookup, "in ${methodName}", 1, 4) == Some("in m")
  {
    MethodNameInValueFound(lookup);
    AsWrittenReplaceStep(lookup, "in ${methodName}", 1, 4, 3, 15, "m");
    assert "in ${methodName}"[..3] + "m" + "in ${methodName}"[16..] == "in m";
    FindOpenNone("in m", 4);
    AsWrittenDoneStep(lookup, "in m", 4, 3);
  }

  /** Resuming one past the start of `in ${methodName}`, the scan finds the placeholder. */
  lemma MethodNameInValueFound(lookup: Lookup)
    requires lookup("methodName") == Some("m")
    ensures NextPlaceholder(lookup, "in ${methodName}", 1) == Replace(3, 15, "m")
  {
    var pre := "in ";
    assert !OpenAt(pre, 0) && !OpenAt(pre, 1) && !OpenAt(pre, 2);
    assert pre + "${" + "methodName" + "}" + "" == "in ${methodName}";
    NextPlaceholderAt(lookup, pre, "methodName", "", 1);
  }

  /** The reference expansion inserts the value of `desc` and does not read it again. */
  lemma InsertedValueKept(lookup: Lookup)
    requires lookup("desc") == Some("in ${methodName}")
    ensures Substituted(lookup, "${desc}") == "in ${methodName}"
  {
    assert "" + "${" + "desc" + "}" + "" == "${desc}";
    ResolvedPlaceholderReplaced(lookup, "", "desc", "", "in ${methodName}");
    assert Substituted(lookup, "") == "";
  }

  /** Every value a placeholder can resolve to is non-empty and has no `$`. */
  ghost predicate PlainValues(lookup: Lookup)
  {
    forall name :: lookup(name).Some? ==> lookup(name).value != [] && '$' !in lookup(name).value
  }

  /** Characters other than `$` before `b` do not change where the search for `${` ends. */
  lemma {:induction false} FindOpenSkips(s: string, a: nat, b: nat)
    requires a <= b <= |s| && forall k :: a <= k < b ==> s[k] != '$'
    ensures FindOpen(s, a) == FindOpen(s, b)
    decreases b - a
  {
    if a < b {
      FindOpenSkips(s, a + 1, b);
    }
  }

  /** After a replacement, the scan as written resumes inside the value, which holds no `$` past its first character. */
  lemma InsertedValueUnread(buf: string, i: nat, j: nat, v: string)
    requires i < j < |buf| && '$' !in v
    ensures var next := buf[..i] + v + buf[j + 1..];
            forall k :: i + 1 <= k < i + |v| ==> next[k] != '$'
  {
    var next := buf[..i] + v + buf[j + 1..];
    forall k | i + 1 <= k < i + |v| ensures next[k] != '$' {
      assert next[k] == v[k - i];
    }
  }

  /**
   * The corrected scan as a function: after a replacement the search resumes
   * right after the inserted value, and one past the `$` otherwise.
   */
  function CorrectedScan(lookup: Lookup, buf: string, from: nat): string
    requires from <= |buf|
    decreases |buf| - from
  {
    match NextPlaceholder(lookup, buf, from)
    case Done => buf
    case Pass(i) => CorrectedScan(lookup, buf, i + 1)
    case Replace(i, j, v) => CorrectedScan(lookup, buf[..i] + v + buf[j + 1..], i + |v|)
  }

  /** The corrected scan yields the reference expansion of what is left, after what it has passed. */
  lemma {:induction false} CorrectedScanIsReference(lookup: Lookup, buf: string, from: nat)
    requires from <= |buf|
    ensures CorrectedScan(lookup, buf, from) == buf[..from] + Substituted(lookup, buf[from..])
    decreases |buf| - from
  {
    var done, buf', from' := CorrectedStep(lookup, buf, from);
    if !done {
      CorrectedScanIsReference(lookup, buf', from');
    }
  }

  /** One step of the corrected scan: it is finished, or both sides move on to the next state. */
  lemma {:induction false} CorrectedStep(lookup: Lookup, buf: string, from: nat) returns (done: bool, buf': string, from': nat)
    requires from <= |buf|
    ensures done ==> CorrectedScan(lookup, buf, from) == buf[..from] + Substituted(lookup, buf[from..])
    ensures !done ==> && from' <= |buf'| && |buf'| - from' < |buf| - from
                      && CorrectedScan(lookup, buf, from) == CorrectedScan(lookup, buf', from')
                      && buf[..from] + Substituted(lookup, buf[from..]) == buf'[..from'] + Substituted(lookup, buf'[from'..])
  {
    var i := FindOpen(buf, from);
    if i < 0 {
      DonePreserves(lookup, buf, from);
      CorrectedDone(lookup, buf, from);
      done, buf', from' := true, buf, from;
    } else {
      done := false;
      var j := FindClose(buf, i);
      if j >= 0 && lookup(buf[i + 2..j]).Some? {
        buf', from' := CorrectedReplaceStep(lookup, buf, from, i, j, lookup(buf[i + 2..j]).value);
      } else {
        buf', from' := CorrectedPassStep(lookup, buf, from, i, j);
      }
    }
  }

  /** A replacement, for both sides of the corrected scan. */
  lemma CorrectedReplaceStep(lookup: Lookup, buf: string, from: nat, i: nat, j: nat, v: string) returns (buf': string, from': nat)
    requires from <= |buf| && FindOpen(buf, from) == i && FindClose(buf, i) == j
    requires lookup(buf[i + 2..j]) == Some(v)
    ensures && from' <= |buf'| && |buf'| - from' < |buf| - from
            && CorrectedScan(lookup, buf, from) == CorrectedScan(lookup, buf', from')
            && buf[..from] + Substituted(lookup, buf[from..]) == buf'[..from'] + Substituted(lookup, buf'[from'..])
  {
    buf', from' := buf[..i] + v + buf[j + 1..], i + |v|;
    ReplacePreserves(lookup, buf, from, i, j, v);
    CorrectedReplace(lookup, buf, from, i, j, v, buf', from');
  }

  /** A placeholder left in place, for both sides of the corrected scan. */
  lemma CorrectedPassStep(lookup: Lookup, buf: string, from: nat, i: nat, j: int) returns (buf': string, from': nat)
    requires from <= |buf| && FindOpen(buf, from) == i && FindClose(buf, i) == j
    requires j < 0 || lookup(buf[i + 2..j]).None?
    ensures && from' <= |buf'| && |buf'| - from' < |buf| - from
            && CorrectedScan(lookup, buf, from) == CorrectedScan(lookup, buf', from')
            && buf[..from] + Substituted(lookup, buf[from..]) == buf'[..from'] + Substituted(lookup, buf'[from'..])
  {
    buf', from' := buf, i + 1;
    PassPreserves(lookup, buf, from, i, j);
    CorrectedPass(lookup, buf, from, i, j, from');
  }

  /**
   * When no `$` lies between where the scan as written resumes (`at`) and
   * where the corrected scan does (`from`), the two agree from there on, as
   * long as every value is non-empty and `$`-free; one step of fuel per
   * character left is enough.
   */
  lemma {:induction false} AsWrittenAgrees(lookup: Lookup, buf: string, at: nat, from: nat, fuel: nat)
    requires PlainValues(lookup)
    requires at <= from <= |buf| && forall k :: at <= k < from ==> buf[k] != '$'
    requires |buf| - from < fuel
    ensures ExpandAsWritten(lookup, buf, at, fuel) == Some(CorrectedScan(lookup, buf, from))
    decreases fuel
  {
    var done, buf', at', from' := AgreeStep(lookup, buf, at, from, fuel);
    if !done {
      AsWrittenAgrees(lookup, buf', at', from', fuel - 1);
    }
  }

  /** One step of both scans from a point where they agree: both are finished, or they agree again one step on. */
  lemma {:induction false} AgreeStep(lookup: Lookup, buf: string, at: nat, from: nat, fuel: nat)
      returns (done: bool, buf': string, at': nat, from': nat)
    requires PlainValues(lookup)
    requires at <= from <= |buf| && forall k :: at <= k < from ==> buf[k] != '$'
    requires |buf| - from < fuel
    ensures done ==> ExpandAsWritten(lookup, buf, at, fuel) == Some(CorrectedScan(lookup, buf, from))
    ensures !done ==> && fuel > 0
                      && at' <= from' <= |buf'| && (forall k :: at' <= k < from' ==> buf'[k] != '$')
                      && |buf'| - from' < fuel - 1
                      && ExpandAsWritten(lookup, buf, at, fuel) == ExpandAsWritten(lookup, buf', at', fuel - 1)
                      && CorrectedScan(lookup, buf, from) == CorrectedScan(lookup, buf', from')
  {
    FindOpenSkips(buf, at, from);
    var i := FindOpen(buf, from);
    if i < 0 {
      AsWrittenDoneStep(lookup, buf, at, fuel);
      CorrectedDone(lookup, buf, from);
      done, buf', at', from' := true, buf, at, from;
    } else {
      done := false;
      var j := FindClose(buf, i);
      if j >= 0 && lookup(buf[i + 2..j]).Some? {
        buf', at', from' := AgreeReplaceStep(lookup, buf, at, from, fuel, i, j, lookup(buf[i + 2..j]).value);
      } else {
        buf', at', from' := AgreePassStep(lookup, buf, at, from, fuel, i, j);
      }
    }
  }

  /** A replacement, for both scans: the scan as written resumes inside the value, which it reads over. */
  lemma AgreeReplaceStep(lookup: Lookup, buf: string, at: nat, from: nat, fuel: nat, i: nat, j: nat, v: string)
      returns (buf': string, at': nat, from': nat)
    requires PlainValues(lookup)
    requires at <= from <= |buf| && |buf| - from < fuel
    requires FindOpen(buf, at) == i && FindOpen(buf, from) == i && FindClose(buf, i) == j
    requires lookup(buf[i + 2..j]) == Some(v)
    ensures && fuel > 0
            && at' <= from' <= |buf'| && (forall k :: at' <= k < from' ==> buf'[k] != '$')
            && |buf'| - from' < fuel - 1
            && ExpandAsWritten(lookup, buf, at, fuel) == ExpandAsWritten(lookup, buf', at', fuel - 1)
            && CorrectedScan(lookup, buf, from) == CorrectedScan(lookup, buf', from')
  {
    buf', at', from' := buf[..i] + v + buf[j + 1..], i + 1, i + |v|;
    ReplacePreserves(lookup, buf, from, i, j, v);
    AsWrittenReplaceStep(lookup, buf, at, fuel, i, j, v);
    CorrectedReplace(lookup, buf, from, i, j, v, buf', from');
    InsertedValueUnread(buf, i, j, v);
  }

  /** A placeholder left in place, for both scans: both resume one past its `$`. */
  lemma AgreePassStep(lookup: Lookup, buf: string, at: nat, from: nat, fuel: nat, i: nat, j: int)
      returns (buf': string, at': nat, from': nat)
    requires at <= from <= |buf| && |buf| - from < fuel
    requires FindOpen(buf, at) == i && FindOpen(buf, from) == i && FindClose(buf, i) == j
    requires j < 0 || lookup(buf[i + 2..j]).None?
    ensures && fuel > 0
            && at' <= from' <= |buf'| && (forall k :: at' <= k < from' ==> buf'[k] != '$')
            && |buf'| - from' < fuel - 1
            && ExpandAsWritten(lookup, buf, at, fuel) == ExpandAsWritten(lookup, buf', at', fuel - 1)
            && CorrectedScan(lookup, buf, from) == CorrectedScan(lookup, buf', from')
  {
    buf', at', from' := buf, i + 1, i + 1;
    CorrectedPass(lookup, buf, from, i, j, from');
    AsWrittenPassStep(lookup, buf, at, fuel, i, j);
  }

  /** The corrected scan ends when no `${` is left. */
  lemma CorrectedDone(lookup: Lookup, buf: string, from: nat)
    requires from <= |buf| && FindOpen(buf, from) < 0
    ensures CorrectedScan(lookup, buf, from) == buf
  {
    assert NextPlaceholder(lookup, buf, from) == Done;
  }

  /** The corrected scan resumes after the value it inserted. */
  lemma CorrectedReplace(lookup: Lookup, buf: string, from: nat, i: nat, j: nat, v: string, next: string, resume: nat)
    requires from <= |buf| && FindOpen(buf, from) == i && FindClose(buf, i) == j
    requires lookup(buf[i + 2..j]) == Some(v)
    requires next == buf[..i] + v + buf[j + 1..] && resume == i + |v|
    ensures resume <= |next|
    ensures CorrectedScan(lookup, buf, from) == CorrectedScan(lookup, next, resume)
  {
    assert |next| == i + |v| + (|buf| - (j + 1));
    assert NextPlaceholder(lookup, buf, from) == Replace(i, j, v);
  }

  /** The corrected scan resumes one past the `$` of a placeholder it leaves in place. */
  lemma CorrectedPass(lookup: Lookup, buf: string, from: nat, i: nat, j: int, resume: nat)
    requires from <= |buf| && FindOpen(buf, from) == i && FindClose(buf, i) == j
    requires j < 0 || lookup(buf[i + 2..j]).None?
    requires resume == i + 1
    ensures resume <= |buf|
    ensures CorrectedScan(lookup, buf, from) == CorrectedScan(lookup, buf, resume)
  {
    assert NextPlaceholder(lookup, buf, from) == Pass(i);
  }

  /** The scan as written ends when no `${` is left. */
  lemma AsWrittenDoneStep(lookup: Lookup, buf: string, from: nat, fuel: nat)
    requires fuel > 0 && FindOpen(buf, from) < 0
    ensures ExpandAsWritten(lookup, buf, from, fuel) == Some(buf)
  {
    assert NextPlaceholder(lookup, buf, from) == Done;
  }

  /** One step of the scan as written over a placeholder it leaves in place. */
  lemma AsWrittenPassStep(lookup: Lookup, buf: string, from: nat, fuel: nat, i: nat, j: int)
    requires fuel > 0 && FindOpen(buf, from) == i && FindClose(buf, i) == j
    requires j < 0 || lookup(buf[i + 2..j]).None?
    ensures ExpandAsWritten(lookup, buf, from, fuel) == ExpandAsWritten(lookup, buf, i + 1, fuel - 1)
  {
    assert NextPlaceholder(lookup, buf, from) == Pass(i);
  }

  /**
   * Where every value is non-empty and free of `$`, the scan as written
   * finishes within one step per character of the message, with exactly the
   * reference expansion: the correction changes nothing there.
   */
  lemma {:induction false} AsWrittenMatchesOnPlainValues(lookup: Lookup, message: string)
    requires PlainValues(lookup)
    ensures ExpandAsWritten(lookup, message, 0, |message| + 1) == Some(Substituted(lookup, message))
  {
    AsWrittenAgrees(lookup, message, 0, 0, |message| + 1);
    CorrectedScanIsReference(lookup, message, 0);
    NothingPassed(lookup, message);
  }

  /** At the start of a scan nothing has been passed. */
  lemma NothingPassed(lookup: Lookup, message: string)
    ensures message[..0] + Substituted(lookup, message[0..]) == Substituted(lookup, message)
  {
    assert message[..0] == [] && message[0..] == message;
  }

  // ---------------------------------------------------------------------------
  // The violation

  datatype NullParameter = NullParameter(parameter: string)

  class ParametricRuleViolation {
    const rule: Rule
    const description: string
    var filename: string
    var beginLine: int
    var beginColumn: int
    var endLine: int
    var endColumn: int
    var packageName: string
    var className: string
    var methodName: string
    var variableName: string

    /** A new violation's state: the position comes from the node when there is one and is 0 otherwise; the names are empty. */
    predicate Initial(node: Option<AstNode>)
      reads this
    {
      && (node.None? ==> beginLine == 0 && beginColumn == 0 && endLine == 0 && endColumn == 0)
      && (node.Some? ==> && beginLine == node.value.beginLine && beginColumn == node.value.beginColumn
                         && endLine == node.value.endLine && endColumn == node.value.endColumn)
      && packageName == "" && className == "" && methodName == "" && variableName == ""
    }

    constructor (rule: Rule, filename: string, node: Option<AstNode>, message: string)
      ensures this.rule == rule && description == message && this.filename == filename
      ensures Initial(node)
    {
      this.rule := rule;
      description := message;
      this.filename := filename;
      packageName, className, methodName, variableName := "", "", "", "";
      if node.Some? {
        beginLine := node.value.beginLine;
        beginColumn := node.value.beginColumn;
        endLine := node.value.endLine;
        endColumn := node.value.endColumn;
      } else {
        beginLine, beginColumn, endLine, endColumn := 0, 0, 0, 0;
      }
    }

    /** What placeholders in this violation's message resolve against. */
    function Names(): Env
      reads this
    {
      Env(variableName, methodName, className, packageName, rule)
    }

    /** `getDescription`: the stored message with its placeholders expanded; nothing changes. */
    method GetDescription() returns (r: string)
      ensures r == Substituted(Resolver(Names()), description)
    {
      r := ExpandVariables(Resolver(Names()), description);
    }

    /** `setLines`: line numbers are 1-based and the range is ordered; the columns stay. */
    method SetLines(theBeginLine: int, theEndLine: int)
      requires 0 < theBeginLine <= theEndLine
      modifies this`beginLine, this`endLine
      ensures beginLine == theBeginLine && endLine == theEndLine
    {
      beginLine := theBeginLine;
      endLine := theEndLine;
    }
  }

  /** The file name the deprecated constructor takes from a rule context: the source file's path, or empty text without one. */
  function FilenameFromContext(sourceCodeFile: Option<string>): (r: string)
    ensures sourceCodeFile.Some? ==> r == sourceCodeFile.value
    ensures sourceCodeFile.None? ==> r == ""
  {
    match sourceCodeFile
    case Some(path) => path
    case None => ""
  }

  /**
   * The constructor's null checks, in order: the rule, then the message, then
   * the file name; a missing node is allowed.
   */
  method NewViolation(rule: Option<Rule>, filename: Option<string>, node: Option<AstNode>, message: Option<string>)
    returns (r: Result<ParametricRuleViolation, NullParameter>)
    ensures rule.None? ==> r == Failure(NullParameter("rule"))
    ensures rule.Some? && message.None? ==> r == Failure(NullParameter("message"))
    ensures rule.Some? && message.Some? && filename.None? ==> r == Failure(NullParameter("file name"))
    ensures r.Success? <==> rule.Some? && message.Some? && filename.Some?
    ensures r.Success? ==> && fresh(r.value) && r.value.rule == rule.value
                           && r.value.description == message.value && r.value.filename == filename.value
                           && r.value.Initial(node)
  {
    if rule.None? {
      return Failure(NullParameter("rule"));
    }
    if message.None? {
      return Failure(NullParameter("message"));
    }
    if filename.None? {
      return Failure(NullParameter("file name"));
    }
    var v := new ParametricRuleViolation(rule.value, filename.value, node, message.value);
    r := Success(v);
  }
}
