/** The scanner of the sprintf builtin. Rendering one verb is Python's own formatting: a parameter
 that may raise. */
module Sprintf {
  import opened Types

  predicate IsFlag(c: char) {
    '0' <= c <= '9' || c in {'#', '+', ' ', '.', '-'}
  }

  predicate IsConversion(c: char) {
    c in {'v', 'T', 't', 'b', 'c', 'd', 'o', 'q', 'x', 'X', 'U', 'e', 'E', 'f', 'F', 'g', 'G', 's', 'p', '%'}
  }

  /** The text matches the verb pattern as a whole: a percent sign, flags, one conversion. */
  predicate IsVerb(s: string) {
    && |s| >= 2 && s[0] == '%' && IsConversion(s[|s| - 1])
    && forall k :: 1 <= k < |s| - 1 ==> IsFlag(s[k])
  }

  datatype Token = Literal(text: string) | Verb(text: string)

  function TextOf(tokens: seq<Token>): string {
    if tokens == [] then "" else tokens[0].text + TextOf(tokens[1..])
  }

  /** Verbs that take an operand: all but the plain double percent. */
  function Consumes(token: Token): nat {
    if token.Verb? && token.text != "%%" then 1 else 0
  }

  /** The verbs that take an operand, in order. */
  function OperandVerbs(tokens: seq<Token>): seq<string> {
    if tokens == [] then []
    else if Consumes(tokens[0]) == 1 then [tokens[0].text] + OperandVerbs(tokens[1..])
    else OperandVerbs(tokens[1..])
  }

  /** The text, the "not enough arguments" error, or whatever the rendering of a verb raised. */
  datatype Rendering<E> = Text(text: string) | TooFew | Raised(error: E)

  /** What the tokens stand for, drawing operands from the front; the first failure ends it. */
  function Render<V, E>(tokens: seq<Token>, operands: seq<V>, format: (string, V) -> Result<string, E>): Rendering<E> {
    if tokens == [] then Text("")
    else
      match tokens[0]
      case Literal(text) => Prefix(text, Render(tokens[1..], operands, format))
      case Verb(text) =>
        if text == "%%" then Prefix("%", Render(tokens[1..], operands, format))
        else if operands == [] then TooFew
        else
          match format(text, operands[0])
          case Err(e) => Raised(e)
          case Ok(piece) => Prefix(piece, Render(tokens[1..], operands[1..], format))
  }

  function Prefix<E>(s: string, r: Rendering<E>): Rendering<E> {
    if r.Text? then Text(s + r.text) else r
  }

  // ---------------------------------------------------------------------------------------------
  // Scanning

  function Flags(s: string): (n: nat)
    ensures n <= |s| && (n < |s| ==> !IsFlag(s[n]))
    ensures forall k :: 0 <= k < n ==> IsFlag(s[k])
  {
    if s == "" || !IsFlag(s[0]) then 0 else 1 + Flags(s[1..])
  }

  /** Length of the verb at the very start of s, if there is one. */
  function VerbLength(s: string): Option<nat> {
    if s == "" || s[0] != '%' then None
    else
      var j := 1 + Flags(s[1..]);
      if j < |s| && IsConversion(s[j]) then Some(j + 1) else None
  }

  /** Flags and conversions are disjoint, so the pattern matches in at most one way at any place. */
  lemma VerbLengthExact(s: string, n: nat)
    ensures VerbLength(s) == Some(n) <==> n <= |s| && IsVerb(s[..n])
  {
    if s != "" && s[0] == '%' {
      var j := 1 + Flags(s[1..]);
      assert forall k :: 1 <= k < |s| ==> s[k] == s[1..][k - 1];
      if j < |s| {
        assert !IsFlag(s[j]);
      }
      if n <= |s| && IsVerb(s[..n]) {
        assert forall k :: 1 <= k < n - 1 ==> IsFlag(s[..n][k]);
        assert IsConversion(s[n - 1]) && !IsFlag(s[n - 1]);
      }
    }
  }

  /** Start and end of the leftmost verb. */
  function NextVerb(s: string): (r: Option<(nat, nat)>)
    ensures r.Some? ==> r.value.0 < r.value.1 <= |s|
  {
    if s == "" then None
    else if VerbLength(s).Some? then Some((0, VerbLength(s).value))
    else Shift(NextVerb(s[1..]), 1)
  }

  function Shift(r: Option<(nat, nat)>, d: nat): Option<(nat, nat)> {
    if r.None? then None else Some((r.value.0 + d, r.value.1 + d))
  }

  /** finditer: literal, verb, literal, verb, ..., literal. */
  function Scan(s: string): seq<Token>
    decreases |s|
  {
    var m := NextVerb(s);
    if m.None? then [Literal(s)]
    else [Literal(s[..m.value.0]), Verb(s[m.value.0 .. m.value.1])] + Scan(s[m.value.1..])
  }

  /** No verb starts within the first n characters of s. */
  ghost predicate NoVerbBefore(s: string, n: nat) {
    forall i, j :: 0 <= i < n && i <= j <= |s| ==> !IsVerb(s[i..j])
  }

  /** The declarative reading of leftmost, non-overlapping matches of the pattern. */
  ghost predicate Tokenises(s: string, tokens: seq<Token>)
    decreases |tokens|
  {
    if |tokens| == 1 then
      tokens[0] == Literal(s) && NoVerbBefore(s, |s|)
    else
      && |tokens| >= 2 && tokens[0].Literal? && tokens[1].Verb?
      && var x, y := tokens[0].text, tokens[1].text;
         && |x| + |y| <= |s| && s[..|x|] == x && s[|x| .. |x| + |y|] == y && IsVerb(y)
         && NoVerbBefore(s, |x|)
         && Tokenises(s[|x| + |y| ..], tokens[2..])
  }

  /** Verbs of the tail are the verbs of s that start later. */
  lemma VerbsShift(s: string, i: nat, j: nat)
    requires s != "" && 1 <= i <= j <= |s|
    ensures s[1..][i - 1 .. j - 1] == s[i..j]
  {
  }

  lemma NoVerbAtStart(s: string, n: nat)
    requires s != "" && VerbLength(s).None? && n < |s| + 1 && NoVerbBefore(s[1..], n)
    ensures NoVerbBefore(s, n + 1)
  {
    forall i, j | 0 <= i < n + 1 && i <= j <= |s| ensures !IsVerb(s[i..j]) {
      if i == 0 {
        VerbLengthExact(s, j);
        assert s[0..j] == s[..j];
      } else {
        VerbsShift(s, i, j);
      }
    }
  }

  lemma {:induction false} NextVerbExact(s: string)
    ensures NextVerb(s).None? ==> NoVerbBefore(s, |s|)
    ensures NextVerb(s).Some? ==> NoVerbBefore(s, NextVerb(s).value.0)
    ensures NextVerb(s).Some? ==> IsVerb(s[NextVerb(s).value.0 .. NextVerb(s).value.1])
  {
    if s == "" {
    } else if VerbLength(s).Some? {
      var n := VerbLength(s).value;
      VerbLengthExact(s, n);
      assert s[0..n] == s[..n];
    } else {
      NextVerbExact(s[1..]);
      var m := NextVerb(s[1..]);
      if m.None? {
        NoVerbAtStart(s, |s| - 1);
      } else {
        NoVerbAtStart(s, m.value.0);
        VerbsShift(s, m.value.0 + 1, m.value.1 + 1);
      }
    }
  }

  lemma VerbEndIsUnique(s: string, i: nat, j: nat, k: nat)
    requires i <= j <= |s| && i <= k <= |s| && IsVerb(s[i..j]) && IsVerb(s[i..k])
    ensures j == k
  {
    assert s[i..][..j - i] == s[i..j];
    assert s[i..][..k - i] == s[i..k];
    VerbLengthExact(s[i..], j - i);
    VerbLengthExact(s[i..], k - i);
  }

  /** Two leftmost verbs start at the same place. */
  lemma LeftmostIsUnique(s: string, i: nat, j: nat, i': nat, j': nat)
    requires i <= j <= |s| && i' <= j' <= |s| && IsVerb(s[i..j]) && IsVerb(s[i'..j'])
    requires NoVerbBefore(s, i) && NoVerbBefore(s, i')
    ensures i == i' && j == j'
  {
    assert i == i';
    VerbEndIsUnique(s, i, j, j');
  }

  lemma TokenisesFirst(s: string, i: nat, j: nat, rest: seq<Token>)
    requires i < j <= |s| && NoVerbBefore(s, i) && IsVerb(s[i..j]) && Tokenises(s[j..], rest)
    ensures Tokenises(s, [Literal(s[..i]), Verb(s[i..j])] + rest)
  {
    var tokens := [Literal(s[..i]), Verb(s[i..j])] + rest;
    assert tokens[2..] == rest;
  }

  lemma {:induction false} ScanTokenises(s: string)
    ensures Tokenises(s, Scan(s))
    decreases |s|
  {
    NextVerbExact(s);
    var m := NextVerb(s);
    if m.None? {
    } else {
      var (i, j) := m.value;
      ScanTokenises(s[j..]);
      TokenisesFirst(s, i, j, Scan(s[j..]));
    }
  }

  lemma {:induction false} TokenisationIsUnique(s: string, a: seq<Token>, b: seq<Token>)
    requires Tokenises(s, a) && Tokenises(s, b)
    ensures a == b
    decreases |a|
  {
    if |a| < 2 || |b| < 2 {
    } else {
      var x, y, x', y' := a[0].text, a[1].text, b[0].text, b[1].text;
      LeftmostIsUnique(s, |x|, |x| + |y|, |x'|, |x'| + |y'|);
      TokenisationIsUnique(s[|x| + |y| ..], a[2..], b[2..]);
      assert a == [a[0], a[1]] + a[2..] && b == [b[0], b[1]] + b[2..];
    }
  }

  /** The scanner finds the tokenisation, and there is only one. */
  lemma ScanIsTheTokenisation(s: string, tokens: seq<Token>)
    ensures Tokenises(s, tokens) <==> tokens == Scan(s)
  {
    ScanTokenises(s);
    if Tokenises(s, tokens) {
      TokenisationIsUnique(s, tokens, Scan(s));
    }
  }

  // ---------------------------------------------------------------------------------------------
  // Laws

  /** Literals and verbs in order concatenate back to the format. */
  lemma {:induction false} ScanLosesNothing(s: string)
    ensures TextOf(Scan(s)) == s
    decreases |s|
  {
    var m := NextVerb(s);
    if m.None? {
    } else {
      var (i, j) := m.value;
      ScanLosesNothing(s[j..]);
      var tokens := Scan(s);
      assert tokens[1..] == [tokens[1]] + Scan(s[j..]);
      assert tokens[1..][1..] == Scan(s[j..]);
      assert s == s[..i] + (s[i..j] + s[j..]);
    }
  }

  /** The renderer refuses operand k for the verb it belongs to. */
  predicate Refused<V, E>(tokens: seq<Token>, operands: seq<V>, format: (string, V) -> Result<string, E>, k: nat) {
    k < |OperandVerbs(tokens)| && k < |operands| && format(OperandVerbs(tokens)[k], operands[k]).Err?
  }

  ghost predicate AnyRefused<V, E>(tokens: seq<Token>, operands: seq<V>, format: (string, V) -> Result<string, E>) {
    exists k: nat :: Refused(tokens, operands, format, k)
  }

  /** Operand k is the first one refused, with error e. */
  ghost predicate FirstRefused<V, E>(tokens: seq<Token>, operands: seq<V>, format: (string, V) -> Result<string, E>, k: nat, e: E) {
    && Refused(tokens, operands, format, k) && format(OperandVerbs(tokens)[k], operands[k]) == Err(e)
    && forall j: nat :: j < k ==> !Refused(tokens, operands, format, j)
  }

  /** Peeling off the first operand-taking verb shifts the refusals by one. */
  lemma RefusedBehind<V, E>(tokens: seq<Token>, operands: seq<V>, format: (string, V) -> Result<string, E>, k: nat)
    requires tokens != [] && Consumes(tokens[0]) == 1 && operands != []
    ensures Refused(tokens, operands, format, k + 1) <==> Refused(tokens[1..], operands[1..], format, k)
    ensures Refused(tokens, operands, format, 0) <==> format(tokens[0].text, operands[0]).Err?
  {
    assert OperandVerbs(tokens)[0] == tokens[0].text && OperandVerbs(tokens)[1..] == OperandVerbs(tokens[1..]);
  }

  /** How every call ends: text unless an operand is refused or missing; a refusal hides missing operands. */
  lemma {:induction false} EndsExactly<V, E>(tokens: seq<Token>, operands: seq<V>, format: (string, V) -> Result<string, E>)
    ensures var r := Render(tokens, operands, format);
            && (r.Raised? <==> AnyRefused(tokens, operands, format))
            && (r.TooFew? <==> !AnyRefused(tokens, operands, format) && |operands| < |OperandVerbs(tokens)|)
    decreases |tokens|
  {
    if tokens == [] {
    } else if Consumes(tokens[0]) == 0 {
      EndsExactly(tokens[1..], operands, format);
      assert forall k: nat :: Refused(tokens, operands, format, k) <==> Refused(tokens[1..], operands, format, k);
    } else if operands == [] {
    } else {
      RefusedBehind(tokens, operands, format, 0);
      if format(tokens[0].text, operands[0]).Ok? {
        EndsExactly(tokens[1..], operands[1..], format);
        AnyRefusedBehind(tokens, operands, format);
      }
    }
  }

  lemma AnyRefusedBehind<V, E>(tokens: seq<Token>, operands: seq<V>, format: (string, V) -> Result<string, E>)
    requires tokens != [] && Consumes(tokens[0]) == 1 && operands != [] && format(tokens[0].text, operands[0]).Ok?
    ensures AnyRefused(tokens, operands, format) <==> AnyRefused(tokens[1..], operands[1..], format)
  {
    RefusedBehind(tokens, operands, format, 0);
    if AnyRefused(tokens[1..], operands[1..], format) {
      var k: nat :| Refused(tokens[1..], operands[1..], format, k);
      RefusedBehind(tokens, operands, format, k);
    }
    if AnyRefused(tokens, operands, format) {
      var k: nat :| Refused(tokens, operands, format, k);
      RefusedBehind(tokens, operands, format, k - 1);
    }
  }

  /** The error that surfaces is that of the first operand refused. */
  lemma {:induction false} RaisesTheFirst<V, E>(tokens: seq<Token>, operands: seq<V>, format: (string, V) -> Result<string, E>, k: nat, e: E)
    requires FirstRefused(tokens, operands, format, k, e)
    ensures Render(tokens, operands, format) == Raised(e)
    decreases |tokens|
  {
    if Consumes(tokens[0]) == 0 {
      assert forall j: nat :: Refused(tokens, operands, format, j) <==> Refused(tokens[1..], operands, format, j);
      RaisesTheFirst(tokens[1..], operands, format, k, e);
    } else if k == 0 {
      assert OperandVerbs(tokens)[0] == tokens[0].text;
    } else {
      assert !Refused(tokens, operands, format, 0);
      RefusedBehind(tokens, operands, format, k - 1);
      forall j: nat | j < k - 1 ensures !Refused(tokens[1..], operands[1..], format, j) {
        RefusedBehind(tokens, operands, format, j);
        assert !Refused(tokens, operands, format, j + 1);
      }
      RaisesTheFirst(tokens[1..], operands[1..], format, k - 1, e);
    }
  }

  /** The operands used are exactly the first as many as there are verbs to take them. */
  lemma {:induction false} SurplusIsIgnored<V, E>(tokens: seq<Token>, operands: seq<V>, format: (string, V) -> Result<string, E>)
    requires |operands| >= |OperandVerbs(tokens)|
    ensures Render(tokens, operands, format) == Render(tokens, operands[..|OperandVerbs(tokens)|], format)
    decreases |tokens|
  {
    if tokens == [] {
    } else if Consumes(tokens[0]) == 0 {
      SurplusIsIgnored(tokens[1..], operands, format);
    } else {
      SurplusIsIgnored(tokens[1..], operands[1..], format);
      assert operands[..|OperandVerbs(tokens)|][1..] == operands[1..][..|OperandVerbs(tokens[1..])|];
    }
  }

  /** A verb in front is scanned as itself. */
  lemma ScanVerb(verb: string, rest: string)
    requires IsVerb(verb)
    ensures Scan(verb + rest) == [Literal(""), Verb(verb)] + Scan(rest)
  {
    var s, n := verb + rest, |verb|;
    assert s[..n] == verb && s[0..n] == verb && s[n..] == rest && s[0] == '%';
    VerbLengthExact(s, n);
  }

  /**
   "Fails iff there are too few operands" is false: no Unicode character is numbered 0x110000, so
   Python raises on it, with the one operand that "%c" needs and before missing the second one of
   "%c%d".
   */
  lemma EnoughOperandsCanFail<E>(format: (string, int) -> Result<string, E>, e: E)
    requires format("%c", 0x110000) == Err(e)
    ensures |OperandVerbs(Scan("%c"))| == 1 && Render(Scan("%c"), [0x110000], format) == Raised(e)
    ensures |OperandVerbs(Scan("%c%d"))| == 2 && Render(Scan("%c%d"), [0x110000], format) == Raised(e)
  {
    NoVerbs();
    VerbInFront("%c", "");
    VerbInFront("%d", "");
    VerbInFront("%c", "%d");
    assert "%c" + "" == "%c" && "%d" + "" == "%d" && "%c" + "%d" == "%c%d";
    FirstIsRefused(Scan("%c"), format, e);
    FirstIsRefused(Scan("%c%d"), format, e);
  }

  lemma NoVerbs()
    ensures OperandVerbs(Scan("")) == []
  {
    assert Scan("") == [Literal("")];
  }

  lemma VerbInFront(verb: string, rest: string)
    requires IsVerb(verb) && verb != "%%"
    ensures OperandVerbs(Scan(verb + rest)) == [verb] + OperandVerbs(Scan(rest))
  {
    ScanVerb(verb, rest);
    var tokens := [Literal(""), Verb(verb)] + Scan(rest);
    assert tokens[1..] == [Verb(verb)] + Scan(rest) && tokens[1..][1..] == Scan(rest);
  }

  lemma FirstIsRefused<E>(tokens: seq<Token>, format: (string, int) -> Result<string, E>, e: E)
    requires OperandVerbs(tokens) != [] && OperandVerbs(tokens)[0] == "%c" && format("%c", 0x110000) == Err(e)
    ensures Render(tokens, [0x110000], format) == Raised(e)
  {
    RaisesTheFirst(tokens, [0x110000], format, 0, e);
  }

  /** Every percent sign doubled. */
  function Escape(s: string): string {
    if s == "" then "" else (if s[0] == '%' then "%%" else [s[0]]) + Escape(s[1..])
  }

  /** Slices of a string with one more character in front. */
  lemma SlicesBehind(c: char, rest: string, i: nat, j: nat)
    requires i <= j <= |rest|
    ensures ([c] + rest)[..i + 1] == [c] + rest[..i]
    ensures ([c] + rest)[i + 1 .. j + 1] == rest[i..j]
    ensures ([c] + rest)[j + 1 ..] == rest[j..]
  {
  }

  /** A plain character joins the first literal. */
  lemma ScanPlain(c: char, rest: string)
    requires c != '%'
    ensures Scan(rest)[0].Literal?
    ensures Scan([c] + rest) == [Literal([c] + Scan(rest)[0].text)] + Scan(rest)[1..]
  {
    var s := [c] + rest;
    assert s[0] == c && s[1..] == rest;
    var m := NextVerb(rest);
    assert NextVerb(s) == Shift(m, 1);
    if m.Some? {
      var i, j := m.value.0, m.value.1;
      SlicesBehind(c, rest, i, j);
      ScanSplit(rest, i, j);
      ScanSplit(s, i + 1, j + 1);
    }
  }

  lemma ScanSplit(s: string, i: nat, j: nat)
    requires NextVerb(s) == Some((i, j))
    ensures i < j <= |s|
    ensures Scan(s) == [Literal(s[..i]), Verb(s[i..j])] + Scan(s[j..])
    ensures Scan(s)[0] == Literal(s[..i]) && Scan(s)[1..] == [Verb(s[i..j])] + Scan(s[j..])
  {
    DropFirst(Literal(s[..i]), Verb(s[i..j]), Scan(s[j..]));
  }

  lemma DropFirst(a: Token, b: Token, rest: seq<Token>)
    ensures ([a, b] + rest)[0] == a && ([a, b] + rest)[1..] == [b] + rest
  {
  }

  /** Escaping and formatting with no operands is the identity. */
  lemma {:induction false} EscapeRoundTrip<V, E>(s: string, format: (string, V) -> Result<string, E>)
    ensures Render(Scan(Escape(s)), [], format) == Text(s)
  {
    if s == "" {
      RenderNothing(format);
    } else {
      var rest := Escape(s[1..]);
      EscapeRoundTrip(s[1..], format);
      assert s == [s[0]] + s[1..];
      if s[0] == '%' {
        ScanVerb("%%", rest);
        RenderPercent(Scan(rest), [], format);
      } else {
        ScanPlain(s[0], rest);
        RenderPlain(s[0], Scan(rest), format);
      }
    }
  }

  lemma RenderNothing<V, E>(format: (string, V) -> Result<string, E>)
    ensures Render(Scan(""), [], format) == Text("")
  {
    assert Scan("") == [Literal("")];
    PrefixEmpty(Render([Literal("")][1..], [], format));
  }

  lemma RenderPercent<V, E>(tokens: seq<Token>, operands: seq<V>, format: (string, V) -> Result<string, E>)
    ensures Render([Literal(""), Verb("%%")] + tokens, operands, format) == Prefix("%", Render(tokens, operands, format))
  {
    var all := [Literal(""), Verb("%%")] + tokens;
    assert all[1..] == [Verb("%%")] + tokens && all[1..][1..] == tokens;
    PrefixEmpty(Render(all[1..], operands, format));
  }

  lemma PrefixEmpty<E>(r: Rendering<E>)
    ensures Prefix("", r) == r
  {
    if r.Text? {
      assert "" + r.text == r.text;
    }
  }

  lemma RenderPlain<V, E>(c: char, tokens: seq<Token>, format: (string, V) -> Result<string, E>)
    requires tokens != [] && tokens[0].Literal?
    ensures Render([Literal([c] + tokens[0].text)] + tokens[1..], [], format)
         == Prefix([c], Render(tokens, [], format))
  {
    var longer := [Literal([c] + tokens[0].text)] + tokens[1..];
    assert longer[1..] == tokens[1..];
    var r := Render(tokens[1..], [], format);
    if r.Text? {
      assert [c] + (tokens[0].text + r.text) == ([c] + tokens[0].text) + r.text;
    }
  }

  // ---------------------------------------------------------------------------------------------
  // The laws on format strings: every format is built from these four

  /** The two character classes of the pattern, written out. */
  predicate InFlagClass(c: char) { c in "#+ 0123456789.-" }
  predicate InVerbClass(c: char) { c in "vTtbcdoqxXUeEfFgGsp%" }

  predicate AllFlags(flags: string) {
    forall k :: 0 <= k < |flags| ==> InFlagClass(flags[k])
  }

  lemma ClassesExactly(c: char)
    ensures IsFlag(c) <==> InFlagClass(c)
    ensures IsConversion(c) <==> InVerbClass(c)
  {
    var n := c as int - '0' as int;
    assert '0' <= c <= '9' <==> n in {0, 1, 2, 3, 4, 5, 6, 7, 8, 9};
  }

  lemma VerbsExactly(flags: string, c: char)
    ensures IsVerb("%" + flags + [c]) <==> AllFlags(flags) && InVerbClass(c)
  {
    var v := "%" + flags + [c];
    assert v[|v| - 1] == c;
    ClassesExactly(c);
    forall k | 0 <= k < |flags| ensures v[k + 1] == flags[k] && (IsFlag(flags[k]) <==> InFlagClass(flags[k])) {
      ClassesExactly(flags[k]);
    }
    if IsVerb(v) {
      forall k | 0 <= k < |flags| ensures InFlagClass(flags[k]) {
        assert IsFlag(v[k + 1]);
      }
    }
    if AllFlags(flags) {
      forall k | 1 <= k < |v| - 1 ensures IsFlag(v[k]) {
        assert v[k] == flags[k - 1];
      }
    }
  }

  /** Text in which no verb starts is passed on as it is. */
  lemma LiteralPrefix<V, E>(p: string, rest: string, operands: seq<V>, format: (string, V) -> Result<string, E>)
    requires NoVerbBefore(p + rest, |p|)
    ensures Render(Scan(p + rest), operands, format) == Prefix(p, Render(Scan(rest), operands, format))
  {
    var s, m := p + rest, NextVerb(rest);
    NextVerbBehind(p, rest);
    if m.None? {
      assert Scan(s) == [Literal(s)] && Scan(rest) == [Literal(rest)];
      RenderLiteral(s, operands, format);
      RenderLiteral(rest, operands, format);
    } else {
      var (i, j) := m.value;
      assert s[..|p| + i] == p + rest[..i] && s[|p| + i .. |p| + j] == rest[i..j] && s[|p| + j ..] == rest[j..];
      ScanSplit(s, |p| + i, |p| + j);
      ScanSplit(rest, i, j);
      PrefixTwice(p, rest[..i], Render(Scan(rest)[1..], operands, format));
    }
  }

  lemma RenderLiteral<V, E>(s: string, operands: seq<V>, format: (string, V) -> Result<string, E>)
    ensures Render([Literal(s)], operands, format) == Text(s)
  {
    assert [Literal(s)][1..] == [];
    assert s + "" == s;
  }

  lemma FrontVerb(s: string)
    requires VerbLength(s).Some?
    ensures VerbLength(s).value <= |s| && IsVerb(s[0 .. VerbLength(s).value])
  {
    VerbLengthExact(s, VerbLength(s).value);
    assert s[0 .. VerbLength(s).value] == s[..VerbLength(s).value];
  }

  /** With no verb starting in p, the verbs of p + rest are those of rest. */
  lemma {:induction false} NextVerbBehind(p: string, rest: string)
    requires NoVerbBefore(p + rest, |p|)
    ensures NextVerb(p + rest) == Shift(NextVerb(rest), |p|)
    decreases |p|
  {
    var s := p + rest;
    if p == "" {
      assert s == rest;
    } else {
      assert s[1..] == p[1..] + rest;
      if VerbLength(s).Some? {
        FrontVerb(s);
        assert false;
      }
      forall i, j | 0 <= i < |p| - 1 && i <= j <= |s| - 1 ensures !IsVerb(s[1..][i..j]) {
        assert s[1..][i..j] == s[i + 1 .. j + 1];
      }
      NextVerbBehind(p[1..], rest);
    }
  }

  /** Law 1: text without a percent sign is passed on. */
  lemma PlainLaw<V, E>(x: string, rest: string, operands: seq<V>, format: (string, V) -> Result<string, E>)
    requires '%' !in x
    ensures Render(Scan(x + rest), operands, format) == Prefix(x, Render(Scan(rest), operands, format))
  {
    var s := x + rest;
    forall i, j | 0 <= i < |x| && i <= j <= |s| ensures !IsVerb(s[i..j]) {
      assert i < j ==> s[i..j][0] == x[i];
    }
    LiteralPrefix(x, rest, operands, format);
  }

  /** The renderer's text in front of the rest, or its error. */
  function Placed<E>(piece: Result<string, E>, rest: Rendering<E>): Rendering<E> {
    if piece.Err? then Raised(piece.error) else Prefix(piece.value, rest)
  }

  /** Law 2: a verb that takes an operand is replaced by the renderer's text for the next one. */
  lemma VerbLaw<V, E>(flags: string, c: char, rest: string, o: V, operands: seq<V>, format: (string, V) -> Result<string, E>)
    requires AllFlags(flags) && InVerbClass(c)
    requires c != '%' || flags != ""
    ensures var verb := "%" + flags + [c];
            && Render(Scan(verb + rest), [], format) == TooFew
            && Render(Scan(verb + rest), [o] + operands, format)
               == Placed(format(verb, o), Render(Scan(rest), operands, format))
  {
    var verb := "%" + flags + [c];
    VerbsExactly(flags, c);
    assert verb != "%%";
    ScanVerb(verb, rest);
    RenderVerb(verb, Scan(rest), [], format);
    RenderVerb(verb, Scan(rest), [o] + operands, format);
    assert ([o] + operands)[1..] == operands;
  }

  lemma RenderVerb<V, E>(verb: string, tokens: seq<Token>, operands: seq<V>, format: (string, V) -> Result<string, E>)
    requires verb != "%%"
    ensures Render([Literal(""), Verb(verb)] + tokens, operands, format) ==
              if operands == [] then TooFew
              else Placed(format(verb, operands[0]), Render(tokens, operands[1..], format))
  {
    var all := [Literal(""), Verb(verb)] + tokens;
    assert all[1..] == [Verb(verb)] + tokens && all[1..][1..] == tokens;
    PrefixEmpty(Render(all[1..], operands, format));
  }

  /** Law 3: a double percent sign becomes one and takes no operand. */
  lemma PercentLaw<V, E>(rest: string, operands: seq<V>, format: (string, V) -> Result<string, E>)
    ensures Render(Scan("%%" + rest), operands, format) == Prefix("%", Render(Scan(rest), operands, format))
  {
    ScanVerb("%%", rest);
    RenderPercent(Scan(rest), operands, format);
  }

  /** Law 4: a percent sign with flags and then neither flag nor conversion is passed on. */
  lemma StrayLaw<V, E>(flags: string, c: char, rest: string, operands: seq<V>, format: (string, V) -> Result<string, E>)
    requires AllFlags(flags)
    requires !InFlagClass(c) && !InVerbClass(c)
    ensures var stray := "%" + flags + [c];
            Render(Scan(stray + rest), operands, format) == Prefix(stray, Render(Scan(rest), operands, format))
  {
    var stray := "%" + flags + [c];
    var s, n := stray + rest, |stray|;
    forall k | 1 <= k < n - 1 ensures s[k] == flags[k - 1] && s[k] != '%' {
      assert InFlagClass(flags[k - 1]);
    }
    ClassesExactly(c);
    assert s[n - 1] == c && !IsFlag(c) && !IsConversion(c);
    forall i, j | 0 <= i < n && i <= j <= |s| ensures !IsVerb(s[i..j]) {
      if i < j {
        var v := s[i..j];
        assert v[0] == s[i] && v[|v| - 1] == s[j - 1];
        if i == 0 && j > n {
          assert v[n - 1] == c;
        }
      }
    }
    LiteralPrefix(stray, rest, operands, format);
  }

  // ---------------------------------------------------------------------------------------------
  // The loop

  /** The end of the verb starting at i, by skipping flags. */
  method MatchVerb(fmt: string, i: nat) returns (end: Option<nat>)
    requires i < |fmt|
    ensures end == (if VerbLength(fmt[i..]).None? then None else Some(i + VerbLength(fmt[i..]).value))
    ensures end.Some? ==> i < end.value <= |fmt|
  {
    if fmt[i] != '%' {
      return None;
    }
    var j := i + 1;
    assert fmt[i..][1..] == fmt[j..];
    while j < |fmt| && IsFlag(fmt[j])
      invariant i < j <= |fmt|
      invariant Flags(fmt[i + 1..]) == j - i - 1 + Flags(fmt[j..])
    {
      assert fmt[j..][1..] == fmt[j + 1..];
      j := j + 1;
    }
    end := if j < |fmt| && IsConversion(fmt[j]) then Some(j + 1) else None;
  }

  /** The leftmost verb of fmt at or after i, in positions of fmt. */
  ghost function VerbFrom(fmt: string, i: nat): Option<(nat, nat)>
    requires i <= |fmt|
  {
    Shift(NextVerb(fmt[i..]), i)
  }

  lemma VerbFromStep(fmt: string, i: nat)
    requires i < |fmt|
    ensures VerbFrom(fmt, i) ==
              if VerbLength(fmt[i..]).None? then VerbFrom(fmt, i + 1) else Some((i, i + VerbLength(fmt[i..]).value))
  {
    assert fmt[i..][1..] == fmt[i + 1..];
  }

  /** The leftmost verb at or after pos. */
  method FindVerb(fmt: string, pos: nat) returns (m: Option<(nat, nat)>)
    requires pos <= |fmt|
    ensures m == VerbFrom(fmt, pos)
  {
    var i := pos;
    while i < |fmt|
      invariant pos <= i <= |fmt|
      invariant VerbFrom(fmt, pos) == VerbFrom(fmt, i)
    {
      VerbFromStep(fmt, i);
      var end := MatchVerb(fmt, i);
      if end.Some? {
        return Some((i, end.value));
      }
      i := i + 1;
    }
    m := None;
  }

  /** What the first literal and verb of s contribute. */
  lemma RenderFirst<V, E>(s: string, operands: seq<V>, format: (string, V) -> Result<string, E>)
    requires NextVerb(s).Some?
    ensures var (i, j) := NextVerb(s).value;
            var verb, rest := s[i..j], s[j..];
            Render(Scan(s), operands, format) ==
              if verb == "%%" then Prefix(s[..i] + "%", Render(Scan(rest), operands, format))
              else if operands == [] then TooFew
              else
                match format(verb, operands[0])
                case Err(e) => Raised(e)
                case Ok(piece) => Prefix(s[..i] + piece, Render(Scan(rest), operands[1..], format))
  {
    var (i, j) := NextVerb(s).value;
    var tokens := Scan(s);
    assert tokens[1..] == [Verb(s[i..j])] + Scan(s[j..]) && tokens[1..][1..] == Scan(s[j..]);
    PrefixTwice(s[..i], "%", Render(Scan(s[j..]), operands, format));
    if operands != [] && format(s[i..j], operands[0]).Ok? {
      PrefixTwice(s[..i], format(s[i..j], operands[0]).value, Render(Scan(s[j..]), operands[1..], format));
    }
  }

  lemma PrefixTwice<E>(x: string, y: string, r: Rendering<E>)
    ensures Prefix(x, Prefix(y, r)) == Prefix(x + y, r)
  {
    if r.Text? {
      assert x + (y + r.text) == (x + y) + r.text;
    }
  }

  /** What is still to be rendered at pos with the first `used` operands spent. */
  ghost function Remaining<V, E>(fmt: string, pos: nat, operands: seq<V>, used: nat, format: (string, V) -> Result<string, E>): Rendering<E>
    requires pos <= |fmt| && used <= |operands|
  {
    Render(Scan(fmt[pos..]), operands[used..], format)
  }

  lemma LoopStart<V, E>(fmt: string, operands: seq<V>, format: (string, V) -> Result<string, E>)
    ensures Prefix("", Remaining(fmt, 0, operands, 0, format)) == Render(Scan(fmt), operands, format)
  {
    assert fmt[0..] == fmt && operands[0..] == operands;
    PrefixEmpty(Render(Scan(fmt), operands, format));
  }

  lemma LoopEnd<V, E>(fmt: string, pos: nat, operands: seq<V>, used: nat, format: (string, V) -> Result<string, E>)
    requires pos <= |fmt| && used <= |operands| && VerbFrom(fmt, pos).None?
    ensures Remaining(fmt, pos, operands, used, format) == Text(fmt[pos..])
  {
    var s, rest := fmt[pos..], operands[used..];
    assert Scan(s) == [Literal(s)] && Scan(s)[1..] == [];
    assert Render(Scan(s)[1..], rest, format) == Text("");
    assert s + "" == s;
  }

  lemma LoopStep<V, E>(fmt: string, pos: nat, operands: seq<V>, used: nat, format: (string, V) -> Result<string, E>, i: nat, j: nat)
    requires pos <= |fmt| && used <= |operands| && VerbFrom(fmt, pos) == Some((i, j))
    ensures pos <= i < j <= |fmt|
    ensures Remaining(fmt, pos, operands, used, format) ==
              if fmt[i..j] == "%%" then Prefix(fmt[pos..i] + "%", Remaining(fmt, j, operands, used, format))
              else if used == |operands| then TooFew
              else
                match format(fmt[i..j], operands[used])
                case Err(e) => Raised(e)
                case Ok(piece) => Prefix(fmt[pos..i] + piece, Remaining(fmt, j, operands, used + 1, format))
  {
    var s := fmt[pos..];
    SlicesOfTail(fmt, pos, i, j);
    assert NextVerb(s) == Some((i - pos, j - pos));
    if used < |operands| {
      assert operands[used..][1..] == operands[used + 1..];
    }
    RenderFirst(s, operands[used..], format);
  }

  lemma SlicesOfTail(fmt: string, pos: nat, i: nat, j: nat)
    requires pos <= i <= j <= |fmt|
    ensures fmt[pos..][..i - pos] == fmt[pos..i]
    ensures fmt[pos..][i - pos .. j - pos] == fmt[i..j]
    ensures fmt[pos..][j - pos..] == fmt[j..]
  {
  }

  /** _sprintf on a string and an array: the rendering of the scanned tokens, and how it ends. */
  method Format<V, E>(fmt: string, operands: seq<V>, format: (string, V) -> Result<string, E>) returns (r: Rendering<E>)
    ensures r == Render(Scan(fmt), operands, format)
    ensures r.Raised? <==> AnyRefused(Scan(fmt), operands, format)
    ensures r.TooFew? <==> !AnyRefused(Scan(fmt), operands, format) && |operands| < |OperandVerbs(Scan(fmt))|
  {
    EndsExactly(Scan(fmt), operands, format);
    ghost var goal := Render(Scan(fmt), operands, format);
    var out, pos, used := "", 0, 0;
    LoopStart(fmt, operands, format);
    while true
      invariant pos <= |fmt| && used <= |operands|
      invariant goal == Prefix(out, Remaining(fmt, pos, operands, used, format))
      decreases |fmt| - pos
    {
      var m := FindVerb(fmt, pos);
      if m.None? {
        LoopEnd(fmt, pos, operands, used, format);
        return Text(out + fmt[pos..]);
      }
      var (i, j) := m.value;
      LoopStep(fmt, pos, operands, used, format, i, j);
      var piece: string;
      if fmt[i..j] == "%%" {
        piece := fmt[pos..i] + "%";
      } else if used == |operands| {
        return TooFew;
      } else {
        var rendered := format(fmt[i..j], operands[used]);
        if rendered.Err? {
          return Raised(rendered.error);
        }
        piece := fmt[pos..i] + rendered.value;
        used := used + 1;
      }
      PrefixTwice(out, piece, Remaining(fmt, j, operands, used, format));
      out, pos := out + piece, j;
    }
  }
}
