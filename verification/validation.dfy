/** The contact form's field validation: JavaScript's `String.prototype.trim`,
    the five regular expressions of the `Validation` class (name, phone, email,
    username, password) read over characters (Unicode scalar values, where
    JavaScript counts UTF-16 code units; the two agree on text inside the Basic
    Multilingual Plane), and the decision `input()` takes on every focus,
    input and blur event, including the shared password slot `tp` that the
    confirmation field compares against. */
module FormValidation {
  import opened Optional

  // ---------------------------------------------------------------------------
  // Character classes

  /** The characters `trim` removes: ECMAScript WhiteSpace and LineTerminator. */
  predicate IsJsSpace(c: char) {
    c == '\t' || c == '\n' || c == '\U{B}' || c == '\U{C}' || c == '\r' || c == ' '
    || c == '\U{A0}' || c == '\U{1680}' || ('\U{2000}' <= c <= '\U{200A}')
    || c == '\U{2028}' || c == '\U{2029}' || c == '\U{202F}' || c == '\U{205F}'
    || c == '\U{3000}' || c == '\U{FEFF}'
  }

  /** The characters a regular expression's `.` does not match. */
  predicate IsLineTerminator(c: char) {
    c == '\n' || c == '\r' || c == '\U{2028}' || c == '\U{2029}'
  }

  /** `\d` (ASCII digits only without the `u` flag). */
  predicate IsDigit(c: char) { '0' <= c <= '9' }
  predicate IsLower(c: char) { 'a' <= c <= 'z' }
  predicate IsUpper(c: char) { 'A' <= c <= 'Z' }
  predicate IsLetter(c: char) { IsLower(c) || IsUpper(c) }

  /** `\w`, which is also `[A-Za-z0-9_]`. */
  predicate IsWord(c: char) { IsLetter(c) || IsDigit(c) || c == '_' }

  /** The email local-part class `[\w - \ .]`: `\w`, the range from space to
      space, an escaped space and a dot. It does not contain `-`. */
  predicate IsLocal(c: char) { IsWord(c) || c == ' ' || c == '.' }

  /** The email domain class `[\w-]`. */
  predicate IsLabel(c: char) { IsWord(c) || c == '-' }

  /** Every character of `s` belongs to the class `p`. */
  predicate All(s: string, p: char -> bool) {
    forall k :: 0 <= k < |s| ==> p(s[k])
  }

  // ---------------------------------------------------------------------------
  // trim

  /** `s` without its leading whitespace. */
  function TrimStart(s: string): (r: string)
    ensures |r| <= |s| && r == s[|s| - |r|..]
    ensures forall k :: 0 <= k < |s| - |r| ==> IsJsSpace(s[k])
    ensures r != [] ==> !IsJsSpace(r[0])
    decreases |s|
  {
    if |s| > 0 && IsJsSpace(s[0]) then TrimStart(s[1..]) else s
  }

  /** `s` without its trailing whitespace. */
  function TrimEnd(s: string): (r: string)
    ensures |r| <= |s| && r == s[..|r|]
    ensures forall k :: |r| <= k < |s| ==> IsJsSpace(s[k])
    ensures r != [] ==> !IsJsSpace(r[|r| - 1])
    decreases |s|
  {
    if |s| > 0 && IsJsSpace(s[|s| - 1]) then TrimEnd(s[..|s| - 1]) else s
  }

  /** `String.prototype.trim`. */
  function Trim(s: string): (r: string)
    ensures r != [] ==> !IsJsSpace(r[0]) && !IsJsSpace(r[|r| - 1])
  {
    var t := TrimStart(s);
    var r := TrimEnd(t);
    assert r != [] ==> r[0] == t[0];
    r
  }

  /** The trimmed text is the slice of `s` between a whitespace prefix and a
      whitespace suffix. */
  lemma TrimSlice(s: string) returns (lo: nat, hi: nat)
    ensures lo <= hi <= |s| && Trim(s) == s[lo..hi]
    ensures forall k :: 0 <= k < lo ==> IsJsSpace(s[k])
    ensures forall k :: hi <= k < |s| ==> IsJsSpace(s[k])
  {
    var t := TrimStart(s);
    var r := TrimEnd(t);
    lo := |s| - |t|;
    hi := lo + |r|;
    assert r == t[..|r|];
    assert t == s[lo..];
    assert r == s[lo..hi];
    forall k | hi <= k < |s| ensures IsJsSpace(s[k]) {
      assert s[k] == t[k - lo];
    }
  }

  /** A value is blank after trimming exactly when it is all whitespace. */
  lemma TrimBlank(s: string)
    ensures Trim(s) == [] <==> All(s, IsJsSpace)
  {
    var lo, hi := TrimSlice(s);
    if Trim(s) == [] {
      assert lo == hi;
      forall k | 0 <= k < |s| ensures IsJsSpace(s[k]) {
        if k >= lo { assert k >= hi; }
      }
    } else {
      assert !IsJsSpace(s[lo]);
    }
  }

  /** Trimming twice is trimming once. */
  lemma TrimIdempotent(s: string)
    ensures Trim(Trim(s)) == Trim(s)
  {
    var t := Trim(s);
    TrimUnchanged(t);
  }

  /** A value with no whitespace at either end is its own trim. */
  lemma TrimUnchanged(s: string)
    requires s != [] ==> !IsJsSpace(s[0]) && !IsJsSpace(s[|s| - 1])
    ensures Trim(s) == s
  {
    var lo, hi := TrimSlice(s);
    if s != [] {
      assert !IsJsSpace(s[0]) && !IsJsSpace(s[|s| - 1]);
      assert lo == 0;
      assert hi == |s|;
    }
  }

  // ---------------------------------------------------------------------------
  // The five regular expressions, `re[0]` to `re[4]`

  /** `re[0]`, `/^[a-zA-Z]+$/`. */
  predicate NameRegex(s: string) {
    |s| >= 1 && All(s, IsLetter)
  }

  /** `re[1]`, `/^\d{10}$/`. */
  predicate PhoneRegex(s: string) {
    |s| == 10 && All(s, IsDigit)
  }

  /** `re[3]`, `/^[A-Za-z0-9_]{5,20}$/`. */
  predicate UsernameRegex(s: string) {
    5 <= |s| <= 20 && All(s, IsWord)
  }

  /** The lookahead `(?=.*p)` at the start of `s`: a character of class `p` that
      only non-terminators precede. */
  predicate LookAhead(s: string, p: char -> bool) {
    exists i :: 0 <= i < |s| && p(s[i]) && All(s[..i], c => !IsLineTerminator(c))
  }

  /** `re[4]`, `/^(?=.*\d)(?=.*[a-z])(?=.*[A-Z]).{8,}$/`: three lookaheads, then
      at least eight characters, none a line terminator, up to the end. */
  predicate PasswordRegex(s: string) {
    && LookAhead(s, IsDigit) && LookAhead(s, IsLower) && LookAhead(s, IsUpper)
    && |s| >= 8 && All(s, c => !IsLineTerminator(c))
  }

  /** `([\w-]+\.)+`: one or more non-empty runs of `[\w-]`, each closed by a dot. */
  predicate DotLabels(s: string) {
    && |s| >= 2 && IsLabel(s[0]) && s[|s| - 1] == '.'
    && (forall k :: 0 <= k < |s| ==> IsLabel(s[k]) || s[k] == '.')
    && (forall k :: 0 <= k < |s| - 1 ==> s[k] == '.' ==> s[k + 1] != '.')
  }

  /** `s[..at]` is the local part, `s[at]` the `@`, `s[at + 1..dot]` the dotted
      labels and `s[dot..]` the final `[\w-]{2,4}`. */
  predicate EmailSplit(s: string, at: nat, dot: nat) {
    && at < dot <= |s| && s[at] == '@'
    && |s[..at]| >= 1 && All(s[..at], IsLocal)
    && DotLabels(s[at + 1..dot])
    && 2 <= |s[dot..]| <= 4 && All(s[dot..], IsLabel)
  }

  /** `re[2]`, `/^[\w - \ .]+@([\w-]+\.)+[\w-]{2,4}$/`: some split of `s` fits. */
  predicate EmailRegex(s: string) {
    exists at: nat, dot: nat | at < dot <= |s| :: EmailSplit(s, at, dot)
  }

  /** The first position of `c` in `s`, or `|s|` when there is none. */
  function IndexOf(s: string, c: char): (r: nat)
    ensures r <= |s|
    ensures r < |s| ==> s[r] == c
    ensures forall k :: 0 <= k < r ==> s[k] != c
    decreases |s|
  {
    if |s| == 0 || s[0] == c then 0 else 1 + IndexOf(s[1..], c)
  }

  /** The last position of `c` in `s`, or `-1` when there is none. */
  function LastIndexOf(s: string, c: char): (r: int)
    ensures -1 <= r < |s|
    ensures r >= 0 ==> s[r] == c
    ensures forall k :: r < k < |s| ==> s[k] != c
    decreases |s|
  {
    if |s| == 0 then -1
    else if s[|s| - 1] == c then |s| - 1
    else LastIndexOf(s[..|s| - 1], c)
  }

  /** A direct decision for `re[2]`: the local part ends at the first `@`, and the
      final run starts after the last dot. */
  function EmailMatches(s: string): bool {
    var at := IndexOf(s, '@');
    var dot := LastIndexOf(s, '.') + 1;
    at < |s| && at < dot && EmailSplit(s, at, dot)
  }

  /** The direct decision agrees with the regular expression. */
  lemma EmailMatchesRegex(s: string)
    ensures EmailMatches(s) <==> EmailRegex(s)
  {
    if EmailMatches(s) {
      var at := IndexOf(s, '@');
      var dot := LastIndexOf(s, '.') + 1;
      assert EmailSplit(s, at, dot);
    }
    if EmailRegex(s) {
      var at: nat, dot: nat :| at < dot <= |s| && EmailSplit(s, at, dot);
      assert IndexOf(s, '@') == at by {
        forall k | 0 <= k < at ensures s[k] != '@' {
          assert s[..at][k] == s[k];
          assert IsLocal(s[..at][k]);
        }
      }
      var labels := s[at + 1..dot];
      assert s[dot - 1] == '.' by { assert labels[|labels| - 1] == s[dot - 1]; }
      assert LastIndexOf(s, '.') == dot - 1 by {
        forall k | dot <= k < |s| ensures s[k] != '.' {
          assert s[dot..][k - dot] == s[k];
        }
      }
    }
  }

  /** The local part accepts a space: `a b@c.de` is an address. */
  lemma EmailAcceptsSpace()
    ensures EmailRegex("a b@c.de")
  {
    var s := "a b@c.de";
    assert s[..3] == "a b";
    assert s[4..6] == "c.";
    assert s[6..] == "de";
    assert EmailSplit(s, 3, 6);
  }

  /** The local part rejects a hyphen: `a-b@c.de` is not an address. */
  lemma EmailRejectsHyphen()
    ensures !EmailRegex("a-b@c.de")
  {
    var s := "a-b@c.de";
    EmailMatchesRegex(s);
    assert IndexOf(s, '@') == 3;
    assert s[..3][1] == '-';
    assert !IsLocal(s[..3][1]);
  }

  /** The last label is at most four characters long: `ab@c.museum` is not an
      address. */
  lemma EmailRejectsLongTail()
    ensures !EmailRegex("ab@c.museum")
  {
    var s := "ab@c.museum";
    EmailMatchesRegex(s);
    assert s[4] == '.';
    assert forall k :: 4 < k < |s| ==> s[k] != '.';
    assert LastIndexOf(s, '.') == 4;
    assert |s[5..]| == 6;
  }

  /** `re[0]` takes one or more ASCII letters and nothing else. */
  lemma NameRegexCases()
    ensures NameRegex("Ada")
    ensures !NameRegex("") && !NameRegex("Ada Lovelace") && !NameRegex("O'Hara")
  {
    assert !IsLetter("Ada Lovelace"[3]);
    assert !IsLetter("O'Hara"[1]);
  }

  /** `re[1]` takes exactly ten digits. */
  lemma PhoneRegexCases()
    ensures PhoneRegex("0123456789")
    ensures !PhoneRegex("012345678") && !PhoneRegex("01234567890") && !PhoneRegex("012-345678")
  {
    assert !IsDigit("012-345678"[3]);
  }

  /** `re[3]` takes five to twenty word characters. */
  lemma UsernameRegexCases()
    ensures UsernameRegex("ada_1") && UsernameRegex("abcdefghijklmnopqrst")
    ensures !UsernameRegex("ada1") && !UsernameRegex("abcdefghijklmnopqrstu") && !UsernameRegex("ada-1")
  {
    assert !IsWord("ada-1"[3]);
  }

  /** `re[4]` needs a digit, a lower-case and an upper-case letter, and at least
      eight characters. */
  lemma PasswordRegexCases()
    ensures PasswordRegex("Abcdefg1")
    ensures !PasswordRegex("Abcdef1")
    ensures !PasswordRegex("abcdefg1") && !PasswordRegex("ABCDEFG1") && !PasswordRegex("Abcdefgh")
  {
    var p := "Abcdefg1";
    assert All(p, c => !IsLineTerminator(c));
    assert All(p[..0], c => !IsLineTerminator(c));
    assert All(p[..1], c => !IsLineTerminator(c));
    assert All(p[..7], c => !IsLineTerminator(c));
    assert IsUpper(p[0]) && IsLower(p[1]) && IsDigit(p[7]);
    assert !LookAhead("abcdefg1", IsUpper) by {
      assert forall i :: 0 <= i < 8 ==> !IsUpper("abcdefg1"[i]);
    }
    assert !LookAhead("ABCDEFG1", IsLower) by {
      assert forall i :: 0 <= i < 8 ==> !IsLower("ABCDEFG1"[i]);
    }
    assert !LookAhead("Abcdefgh", IsDigit) by {
      assert forall i :: 0 <= i < 8 ==> !IsDigit("Abcdefgh"[i]);
    }
  }

  /** A single scan deciding `re[4]`. */
  method CheckPassword(s: string) returns (ok: bool)
    ensures ok <==> PasswordRegex(s)
  {
    var clean, digit, lower, upper := true, false, false, false;
    var i := 0;
    while i < |s| && clean
      invariant 0 <= i <= |s|
      invariant clean <==> All(s[..i], c => !IsLineTerminator(c))
      invariant clean ==> (digit <==> LookAheadBefore(s, i, IsDigit))
      invariant clean ==> (lower <==> LookAheadBefore(s, i, IsLower))
      invariant clean ==> (upper <==> LookAheadBefore(s, i, IsUpper))
    {
      var c := s[i];
      assert s[..i + 1] == s[..i] + [c];
      if IsLineTerminator(c) {
        clean := false;
      } else {
        digit := digit || IsDigit(c);
        lower := lower || IsLower(c);
        upper := upper || IsUpper(c);
        assert forall p: char -> bool :: LookAheadBefore(s, i + 1, p) <==> LookAheadBefore(s, i, p) || p(c) by {
          forall p: char -> bool ensures LookAheadBefore(s, i + 1, p) <==> LookAheadBefore(s, i, p) || p(c) {
            if p(c) {
              assert s[..i] == s[..i + 1][..i];
            }
            if LookAheadBefore(s, i + 1, p) {
              var j :| 0 <= j < i + 1 && p(s[j]) && All(s[..j], c => !IsLineTerminator(c));
            }
          }
        }
      }
      i := i + 1;
    }
    if clean {
      assert s[..i] == s;
      assert forall p: char -> bool :: LookAheadBefore(s, |s|, p) <==> LookAhead(s, p);
      ok := |s| >= 8 && digit && lower && upper;
    } else {
      ok := false;
      var j :| 0 <= j < i && IsLineTerminator(s[..i][j]);
      assert IsLineTerminator(s[j]);
    }
  }

  /** `LookAhead` restricted to a match that ends before `n`. */
  predicate LookAheadBefore(s: string, n: nat, p: char -> bool)
    requires n <= |s|
  {
    exists i :: 0 <= i < n && p(s[i]) && All(s[..i], c => !IsLineTerminator(c))
  }

  // ---------------------------------------------------------------------------
  // The Validation class

  /** `re[code].test(value)` for an index into the five expressions. */
  predicate Matches(code: int, value: string)
    requires 0 <= code < 5
  {
    match code
    case 0 => NameRegex(value)
    case 1 => PhoneRegex(value)
    case 2 => EmailRegex(value)
    case 3 => UsernameRegex(value)
    case 4 => PasswordRegex(value)
  }

  /** A validated form control: the `parseInt` readings of `data-a` (which
      expression) and `data-b` (0 marks the password confirmation), `None` when
      the attribute is missing, empty or not a number; whether it is `required`;
      and its `data-name` and `data-msg` texts. */
  datatype Field = Field(a: Option<int>, b: Option<int>, required: bool, name: string, msg: string)

  /** The visible state of a field: the `err` class on its label span, that
      span's text and the text of its `.error-msg` element. */
  datatype Display = Display(err: bool, caption: string, message: string)

  /** Blank after trimming, rejected by its check, accepted, or the handler threw
      because `re[da]` is not an expression. */
  datatype Verdict = Blank | Rejected | Accepted | Crashed

  /** What `input()` leaves behind: its verdict (it returns `true` exactly when
      accepted), the shared password slot `tp`, and the field's display. */
  datatype Outcome = Outcome(verdict: Verdict, tp: Option<string>, display: Display)

  /** The confirmation field: `data-a` 4 and `data-b` 0. */
  predicate IsConfirm(f: Field) { f.a == Some(4) && f.b == Some(0) }

  /** A password field other than the confirmation records its trimmed value. */
  predicate SetsPassword(f: Field) { f.a == Some(4) && f.b != Some(0) }

  /** The `parseInt` reading of an optional `data-*` attribute. */
  function Code(attr: Option<string>, parseInt: string -> Option<int>): (r: Option<int>)
    ensures attr.None? || attr == Some("") ==> r.None?
    ensures attr.Some? && attr.value != "" ==> r == parseInt(attr.value)
  {
    if attr.Some? && attr.value != "" then parseInt(attr.value) else None
  }

  /** The `Validation` constructor: submit buttons get no listeners, so `input()`
      never runs for them; every other control is validated with its codes. */
  function Attach(isSubmit: bool, dataA: Option<string>, dataB: Option<string>,
                  parseInt: string -> Option<int>, required: bool, name: string, msg: string): (r: Option<Field>)
    ensures r.None? <==> isSubmit
    ensures r.Some? ==> r.value.a == Code(dataA, parseInt) && r.value.b == Code(dataB, parseInt)
  {
    if isSubmit then None
    else Some(Field(Code(dataA, parseInt), Code(dataB, parseInt), required, name, msg))
  }

  /** `input()`: a password field first records its trimmed value in `tp`; a value
      that trims to nothing is blank (the message says `Required` for a required
      field); the confirmation field compares its untrimmed value with `tp`; any
      other field tests its untrimmed value against `re[da]`, which throws when
      `da` is not 0 to 4. A rejection raises the error and shows `data-msg` but
      leaves the message element as it was. */
  function Input(f: Field, value: string, tp: Option<string>, d: Display): (o: Outcome)
    ensures o.tp == (if SetsPassword(f) then Some(Trim(value)) else tp)
    ensures o.verdict == Blank <==> Trim(value) == []
    ensures o.verdict == Accepted <==>
              && Trim(value) != []
              && (if IsConfirm(f) then tp == Some(value)
                  else f.a.Some? && 0 <= f.a.value < 5 && Matches(f.a.value, value))
    ensures o.verdict == Crashed <==>
              Trim(value) != [] && !IsConfirm(f) && !(f.a.Some? && 0 <= f.a.value < 5)
    ensures o.verdict != Crashed ==> (o.display.err <==> o.verdict != Accepted)
    ensures o.verdict == Crashed ==> o.display == d
    ensures o.verdict == Blank ==>
              o.display.caption == f.name && o.display.message == (if f.required then "Required" else "")
    ensures o.verdict == Rejected ==> o.display.caption == f.msg && o.display.message == d.message
    ensures o.verdict == Accepted ==> o.display.caption == f.name && o.display.message == ""
  {
    var tp' := if SetsPassword(f) then Some(Trim(value)) else tp;
    var rejected := Outcome(Rejected, tp', d.(err := true, caption := f.msg));
    var accepted := Outcome(Accepted, tp', Display(false, f.name, ""));
    if Trim(value) == [] then
      Outcome(Blank, tp', Display(true, f.name, if f.required then "Required" else ""))
    else if IsConfirm(f) then
      if Some(value) == tp' then accepted else rejected
    else if f.a.Some? && 0 <= f.a.value < 5 then
      if Matches(f.a.value, value) then accepted else rejected
    else
      Outcome(Crashed, tp', d)
  }

  /** Only the confirmation field reads `tp`: every other field's verdict and
      display are the same whatever password was recorded. */
  lemma OnlyConfirmReadsPassword(f: Field, value: string, tp1: Option<string>, tp2: Option<string>, d: Display)
    requires !IsConfirm(f)
    ensures Input(f, value, tp1, d).verdict == Input(f, value, tp2, d).verdict
    ensures Input(f, value, tp1, d).display == Input(f, value, tp2, d).display
  {
  }

  /** A name, phone number or username the expression accepts has no whitespace
      at either end, so the untrimmed test and the trimmed blank check never
      disagree on it. */
  lemma StrictValuesAreTrimmed(code: int, value: string)
    requires code == 0 || code == 1 || code == 3
    requires Matches(code, value)
    ensures Trim(value) == value && value != []
  {
    assert !IsJsSpace(value[0]) && !IsJsSpace(value[|value| - 1]) by {
      assert IsWord(value[0]) && IsWord(value[|value| - 1]);
    }
    TrimUnchanged(value);
  }

  /** As written: after the password field records `p`, the confirmation accepts
      a non-blank `c` exactly when `c` equals the trimmed `p`, so typing the same
      text with surrounding whitespace into both fields is rejected. */
  lemma ConfirmAsWritten(pw: Field, confirm: Field, p: string, c: string, tp: Option<string>,
                         d1: Display, d2: Display)
    requires SetsPassword(pw) && IsConfirm(confirm) && Trim(c) != []
    ensures Input(confirm, c, Input(pw, p, tp, d1).tp, d2).verdict == Accepted <==> c == Trim(p)
  {
  }

  /** The password ` Abcdefg1` (with a leading space) passes the password field,
      yet the same text typed into the confirmation field is rejected. */
  lemma PaddedPasswordRejected(pw: Field, confirm: Field, p: string, tp: Option<string>,
                                d1: Display, d2: Display)
    requires SetsPassword(pw) && IsConfirm(confirm) && p == " Abcdefg1"
    ensures var first := Input(pw, p, tp, d1);
            first.verdict == Accepted && Input(confirm, p, first.tp, d2).verdict == Rejected
  {
    PaddedPasswordPasses(p);
    PaddedPasswordTrims(p);
    var first := Input(pw, p, tp, d1);
    assert first.verdict == Accepted;
    ConfirmAsWritten(pw, confirm, p, p, tp, d1, d2);
  }

  /** ` Abcdefg1` trims to `Abcdefg1`. */
  lemma PaddedPasswordTrims(p: string)
    requires p == " Abcdefg1"
    ensures Trim(p) == p[1..] && Trim(p) != p && Trim(p) != []
  {
    assert IsJsSpace(p[0]) && !IsJsSpace(p[1]) && !IsJsSpace(p[8]);
    assert TrimStart(p[1..]) == p[1..];
    assert TrimStart(p) == p[1..];
    assert TrimEnd(p[1..]) == p[1..];
  }

  /** ` Abcdefg1` satisfies the password expression. */
  lemma PaddedPasswordPasses(p: string)
    requires p == " Abcdefg1"
    ensures PasswordRegex(p)
  {
    assert All(p, c => !IsLineTerminator(c));
    assert All(p[..1], c => !IsLineTerminator(c));
    assert All(p[..2], c => !IsLineTerminator(c));
    assert All(p[..8], c => !IsLineTerminator(c));
    assert IsUpper(p[1]) && IsLower(p[2]) && IsDigit(p[8]);
  }

  /** The confirmation check with the comparison the field evidently intends:
      its value is trimmed like the recorded password before comparing. Every
      other field behaves as written. */
  function InputCorrected(f: Field, value: string, tp: Option<string>, d: Display): (o: Outcome)
    ensures IsConfirm(f) && Trim(value) != [] ==> (o.verdict == Accepted <==> tp == Some(Trim(value)))
    ensures IsConfirm(f) ==> (o.verdict == Blank <==> Trim(value) == [])
    ensures !IsConfirm(f) ==> o == Input(f, value, tp, d)
  {
    if IsConfirm(f) then
      TrimIdempotent(value);
      Input(f, Trim(value), tp, d)
    else Input(f, value, tp, d)
  }

  /** Corrected: after the password field records `p`, the confirmation accepts a
      non-blank `c` exactly when both hold the same text once trimmed; in
      particular the same text typed into both fields is always accepted. */
  lemma ConfirmCorrected(pw: Field, confirm: Field, p: string, c: string, tp: Option<string>,
                         d1: Display, d2: Display)
    requires SetsPassword(pw) && IsConfirm(confirm) && Trim(c) != []
    ensures InputCorrected(confirm, c, InputCorrected(pw, p, tp, d1).tp, d2).verdict == Accepted
            <==> Trim(c) == Trim(p)
    ensures Trim(p) != [] ==> InputCorrected(confirm, p, InputCorrected(pw, p, tp, d1).tp, d2).verdict == Accepted
  {
    assert !IsConfirm(pw);
  }
}
