/** The strings under which main_ppo_sync.py stores agent loop outputs: {uid}_{session}_{index}. */
module OutputKeys {
  import opened Wrappers
  import opened ReplayBuffer

  // ----- decimal numbers -----

  function Digit(d: nat): char
    requires d < 10
  {
    '0' + d as char
  }

  /** str(n) */
  function Decimal(n: nat): (s: string)
    ensures |s| > 0
  {
    if n < 10 then [Digit(n)] else Decimal(n / 10) + [Digit(n % 10)]
  }

  function DigitValue(c: char): Option<nat> {
    if '0' <= c <= '9' then Some(c as nat - '0' as nat) else None
  }

  /** int(s) for a string of digits. */
  function ParseDecimal(s: string): Option<nat> {
    if s == [] || DigitValue(s[|s| - 1]).None? then None
    else if |s| == 1 then DigitValue(s[0])
    else match ParseDecimal(s[..|s| - 1])
         case None => None
         case Some(n) => Some(10 * n + DigitValue(s[|s| - 1]).value)
  }

  lemma {:induction false} ParseUndoesDecimal(n: nat)
    ensures ParseDecimal(Decimal(n)) == Some(n)
    ensures '_' !in Decimal(n)
  {
    if n >= 10 {
      ParseUndoesDecimal(n / 10);
      var s := Decimal(n);
      assert s[..|s| - 1] == Decimal(n / 10) && s[|s| - 1] == Digit(n % 10);
    }
  }

  /** Only zero begins with one. */
  lemma {:induction false} NoLeadingZero(n: nat)
    ensures Decimal(n)[0] == '0' <==> n == 0
  {
    if n >= 10 {
      NoLeadingZero(n / 10);
    }
  }

  /** Base ten, the highest digit first. */
  lemma DecimalForms()
    ensures Decimal(0) == "0" && Decimal(9) == "9" && Decimal(10) == "10" && Decimal(365) == "365"
  {
    assert Decimal(3) == "3";
    assert Decimal(36) == "36";
  }

  lemma ParseForms()
    ensures ParseDecimal("365") == Some(365) && ParseDecimal("007") == Some(7)
    ensures ParseDecimal("") == None && ParseDecimal("3x5") == None
  {
    assert "365"[..2] == "36" && "36"[..1] == "3";
    assert ParseDecimal("36") == Some(36);
    assert "007"[..2] == "00" && "00"[..1] == "0";
    assert ParseDecimal("00") == Some(0);
    assert "3x5"[..2] == "3x";
    assert ParseDecimal("3x") == None;
  }

  lemma {:induction false} DecimalIsDigits(n: nat)
    ensures forall c :: c in Decimal(n) ==> '0' <= c <= '9'
  {
    if n >= 10 {
      DecimalIsDigits(n / 10);
    }
  }

  predicate IsSpace(c: char) {
    c == ' ' || '\t' <= c <= '\r'
  }

  function StripLeft(s: string): string {
    if s != [] && IsSpace(s[0]) then StripLeft(s[1..]) else s
  }

  function StripRight(s: string): string {
    if s != [] && IsSpace(s[|s| - 1]) then StripRight(s[..|s| - 1]) else s
  }

  /** int(s) for ASCII strings without underscores: spaces around it and one sign are accepted. */
  function ParseInt(s: string): Option<int> {
    var t := StripRight(StripLeft(s));
    var digits := if t != [] && (t[0] == '+' || t[0] == '-') then t[1..] else t;
    match ParseDecimal(digits)
    case None => None
    case Some(n) => var i: int := n; Some(if t[0] == '-' then -i else i)
  }

  lemma {:induction false} StripBoth(left: string, core: string, right: string)
    requires (forall c :: c in left ==> IsSpace(c)) && forall c :: c in right ==> IsSpace(c)
    requires core != [] && !IsSpace(core[0]) && !IsSpace(core[|core| - 1])
    ensures StripRight(StripLeft(left + core + right)) == core
    decreases |left| + |right|
  {
    if left != [] {
      assert left[0] in left;
      assert (left + core + right)[1..] == left[1..] + core + right;
      StripBoth(left[1..], core, right);
    } else if right != [] {
      var s, r := core + right, right[..|right| - 1];
      assert left + core + right == s && left + core + r == core + r;
      assert right[|right| - 1] in right;
      assert s[..|s| - 1] == core + r;
      assert StripLeft(s) == s && StripLeft(core + r) == core + r;
      StripBoth(left, core, r);
    } else {
      assert left + core + right == core;
    }
  }

  /** Spaces around it make no difference. */
  lemma {:induction false} ParseIntTrims(left: string, core: string, right: string)
    requires (forall c :: c in left ==> IsSpace(c)) && forall c :: c in right ==> IsSpace(c)
    requires core != [] && !IsSpace(core[0]) && !IsSpace(core[|core| - 1])
    ensures ParseInt(left + core + right) == ParseInt(core)
  {
    StripBoth(left, core, right);
    StripBoth([], core, []);
    assert [] + core + [] == core;
  }

  /** int() takes a number with a sign or without, and with spaces around it. */
  lemma {:induction false} ParseIntForms(left: string, right: string, n: nat)
    requires (forall c :: c in left ==> IsSpace(c)) && forall c :: c in right ==> IsSpace(c)
    ensures ParseInt(left + Decimal(n) + right) == Some(n)
    ensures ParseInt(left + ("+" + Decimal(n)) + right) == Some(n)
    ensures ParseInt(left + ("-" + Decimal(n)) + right) == Some(-(n as int))
  {
    var s := Decimal(n);
    DecimalIsDigits(n);
    assert s[0] in s && s[|s| - 1] in s;
    ParseIntTrims(left, s, right);
    ParseIntTrims(left, "+" + s, right);
    ParseIntTrims(left, "-" + s, right);
    ParseIntUndoesDecimal(n);
    SignedDecimal('+', n);
    SignedDecimal('-', n);
  }

  lemma {:induction false} ParseIntOf(s: string)
    requires s != [] && (s[0] == '+' || s[0] == '-') && StripRight(StripLeft(s)) == s
    ensures ParseInt(s) ==
            match ParseDecimal(s[1..])
            case None => None
            case Some(n) => Some(if s[0] == '-' then -(n as int) else n as int)
  {
  }

  lemma {:induction false} SignedDigits(sign: char, digits: string, n: nat)
    requires (sign == '+' || sign == '-') && ParseDecimal(digits) == Some(n)
    requires digits != [] && !IsSpace(digits[|digits| - 1])
    ensures ParseInt([sign] + digits) == Some(if sign == '-' then -(n as int) else n as int)
  {
    var s := [sign] + digits;
    assert StripLeft(s) == s;
    assert StripRight(s) == s;
    assert s[1..] == digits;
    ParseIntOf(s);
  }

  lemma {:induction false} SignedDecimal(sign: char, n: nat)
    requires sign == '+' || sign == '-'
    ensures ParseInt([sign] + Decimal(n)) == Some(if sign == '-' then -(n as int) else n as int)
  {
    var digits := Decimal(n);
    DecimalIsDigits(n);
    assert digits[|digits| - 1] in digits;
    ParseUndoesDecimal(n);
    SignedDigits(sign, digits, n);
  }

  lemma {:induction false} ParseIntUndoesDecimal(n: nat)
    ensures ParseInt(Decimal(n)) == Some(n)
  {
    var s := Decimal(n);
    DecimalIsDigits(n);
    assert s[0] in s && s[|s| - 1] in s;
    ParseUndoesDecimal(n);
  }

  // ----- rsplit -----

  /** The part after the last underscore. */
  function LastField(s: string): (field: string)
    ensures |field| <= |s| && field == s[|s| - |field|..]
    ensures '_' !in field
    ensures |field| < |s| ==> s[|s| - |field| - 1] == '_'
  {
    if s == [] || s[|s| - 1] == '_' then []
    else
      var field := LastField(s[..|s| - 1]);
      assert field + [s[|s| - 1]] == s[|s| - 1 - |field|..];
      field + [s[|s| - 1]]
  }

  /** s.rsplit("_", maxsplit) */
  function RSplit(s: string, maxsplit: nat): (fields: seq<string>)
    ensures 1 <= |fields| <= maxsplit + 1
    decreases maxsplit
  {
    var last := LastField(s);
    if maxsplit == 0 || |last| == |s| then [s]
    else RSplit(s[..|s| - |last| - 1], maxsplit - 1) + [last]
  }

  lemma {:induction false} LastFieldOf(prefix: string, field: string)
    requires '_' !in field
    ensures LastField(prefix + "_" + field) == field
  {
    var s := prefix + "_" + field;
    if field != [] {
      var n := |field| - 1;
      assert s[..|s| - 1] == prefix + "_" + field[..n];
      LastFieldOf(prefix, field[..n]);
      assert field == field[..n] + [field[n]];
      assert s[|s| - 1] == field[n];
    }
  }

  lemma RSplitOne(prefix: string, field: string, maxsplit: nat)
    requires '_' !in field && maxsplit > 0
    ensures RSplit(prefix + "_" + field, maxsplit) == RSplit(prefix, maxsplit - 1) + [field]
  {
    var s := prefix + "_" + field;
    LastFieldOf(prefix, field);
    assert s[..|s| - |field| - 1] == prefix;
  }

  // ----- keys -----

  function SessionKey(uid: string, session: nat): string {
    uid + "_" + Decimal(session)
  }

  function OutputString(uid: string, session: nat, index: nat): string {
    uid + "_" + Decimal(session) + "_" + Decimal(index)
  }

  lemma {:induction false} SplitThree(uid: string, session: string, index: string)
    requires '_' !in session && '_' !in index
    ensures RSplit(uid + "_" + session + "_" + index, 2) == [uid, session, index]
  {
    RSplitOne(uid + "_" + session, index, 2);
    RSplitOne(uid, session, 1);
  }

  lemma {:induction false} NoUnderscore(s: string)
    requires '_' !in s
    ensures LastField(s) == s
  {
    if s != [] {
      assert forall c :: c in s[..|s| - 1] ==> c in s;
      assert s[|s| - 1] in s;
      NoUnderscore(s[..|s| - 1]);
    }
  }

  lemma {:induction false} SplitNone(s: string, maxsplit: nat)
    requires '_' !in s
    ensures RSplit(s, maxsplit) == [s]
  {
    NoUnderscore(s);
  }

  lemma {:induction false} SplitShort(first: string, second: string)
    requires '_' !in first && '_' !in second
    ensures RSplit(first, 2) == [first] && RSplit(first + "_" + second, 2) == [first, second]
  {
    SplitNone(first, 2);
    SplitNone(first, 1);
    RSplitOne(first, second, 2);
    assert [first] + [second] == [first, second];
  }

  /** Splitting a key from the right gives back what it was made of, whatever the uid is. */
  lemma SplitUndoesFormat(uid: string, session: nat, index: nat)
    ensures RSplit(OutputString(uid, session, index), 2) == [uid, Decimal(session), Decimal(index)]
    ensures ParseDecimal(Decimal(session)) == Some(session) && ParseDecimal(Decimal(index)) == Some(index)
  {
    ParseUndoesDecimal(session);
    ParseUndoesDecimal(index);
    SplitThree(uid, Decimal(session), Decimal(index));
  }

  lemma KeyForms()
    ensures SessionKey("a_b", 3) == "a_b_3" && OutputString("a_b", 3, 12) == "a_b_3_12"
  {
    assert Decimal(12) == "12";
  }

  lemma OutputStringsAreDistinct(u: string, s: nat, i: nat, v: string, t: nat, j: nat)
    ensures OutputString(u, s, i) == OutputString(v, t, j) <==> u == v && s == t && i == j
  {
    SplitUndoesFormat(u, s, i);
    SplitUndoesFormat(v, t, j);
    if OutputString(u, s, i) == OutputString(v, t, j) {
      assert [u, Decimal(s), Decimal(i)][0] == [v, Decimal(t), Decimal(j)][0];
      assert [u, Decimal(s), Decimal(i)][1] == [v, Decimal(t), Decimal(j)][1];
      assert [u, Decimal(s), Decimal(i)][2] == [v, Decimal(t), Decimal(j)][2];
    }
  }

  lemma SessionKeysAreDistinct(u: string, s: nat, v: string, t: nat)
    ensures SessionKey(u, s) == SessionKey(v, t) <==> u == v && s == t
  {
    OutputStringsAreDistinct(u, s, 0, v, t, 0);
  }

  predicate IsDecimal(s: string) {
    ParseDecimal(s).Some? && Decimal(ParseDecimal(s).value) == s
  }

  /** Ends in two numbers. */
  predicate LooksLikeOutput(s: string) {
    var fields := RSplit(s, 2);
    |fields| == 3 && IsDecimal(fields[1]) && IsDecimal(fields[2])
  }

  function Join(fields: seq<string>): string
    requires |fields| > 0
  {
    if |fields| == 1 then fields[0] else Join(fields[..|fields| - 1]) + "_" + fields[|fields| - 1]
  }

  lemma JoinOne(fields: seq<string>, last: string)
    requires |fields| > 0
    ensures Join(fields + [last]) == Join(fields) + "_" + last
  {
    assert (fields + [last])[..|fields|] == fields;
  }

  /** What is before the last field and its underscore. */
  function Before(s: string): string
    requires |LastField(s)| < |s|
  {
    s[..|s| - |LastField(s)| - 1]
  }

  lemma LastFieldJoins(s: string)
    requires |LastField(s)| < |s|
    ensures Before(s) + "_" + LastField(s) == s
  {
  }

  lemma RSplitOnce(s: string, maxsplit: nat)
    requires maxsplit > 0 && |LastField(s)| < |s|
    ensures RSplit(s, maxsplit) == RSplit(Before(s), maxsplit - 1) + [LastField(s)]
  {
  }

  lemma RejoinLast(fields: seq<string>, s: string)
    requires |fields| > 0 && |LastField(s)| < |s| && Join(fields) == Before(s)
    ensures Join(fields + [LastField(s)]) == s
  {
    JoinOne(fields, LastField(s));
    LastFieldJoins(s);
  }

  lemma {:induction false} SplitJoins(s: string, maxsplit: nat)
    ensures Join(RSplit(s, maxsplit)) == s
    decreases maxsplit
  {
    if maxsplit > 0 && |LastField(s)| < |s| {
      SplitJoins(Before(s), maxsplit - 1);
      RSplitOnce(s, maxsplit);
      RejoinLast(RSplit(Before(s), maxsplit - 1), s);
    } else {
      assert RSplit(s, maxsplit) == [s];
    }
  }

  /** Only the first field can have underscores, and only if there were more than maxsplit of them. */
  lemma {:induction false} FieldsAreSplit(s: string, maxsplit: nat)
    ensures forall i :: 1 <= i < |RSplit(s, maxsplit)| ==> '_' !in RSplit(s, maxsplit)[i]
    ensures |RSplit(s, maxsplit)| <= maxsplit ==> '_' !in RSplit(s, maxsplit)[0]
    decreases maxsplit
  {
    if maxsplit > 0 && |LastField(s)| < |s| {
      FieldsAreSplit(Before(s), maxsplit - 1);
      RSplitOnce(s, maxsplit);
    } else if maxsplit > 0 {
      assert LastField(s) == s;
    }
  }

  lemma JoinThree(a: string, b: string, c: string)
    ensures Join([a, b, c]) == a + "_" + b + "_" + c
  {
    JoinOne([a], b);
    JoinOne([a, b], c);
    assert [a] + [b] == [a, b] && [a, b] + [c] == [a, b, c];
  }

  lemma {:induction false} OutputLooks(uid: string, session: nat, index: nat)
    ensures LooksLikeOutput(OutputString(uid, session, index))
  {
    SplitUndoesFormat(uid, session, index);
  }

  lemma {:induction false} LooksLikeIs(s: string) returns (uid: string, session: nat, index: nat)
    requires LooksLikeOutput(s)
    ensures s == OutputString(uid, session, index)
  {
    var fields := RSplit(s, 2);
    SplitJoins(s, 2);
    JoinThree(fields[0], fields[1], fields[2]);
    assert fields == [fields[0], fields[1], fields[2]];
    uid, session, index := fields[0], ParseDecimal(fields[1]).value, ParseDecimal(fields[2]).value;
  }

  /** A string is the key of some output exactly when it ends in two numbers. */
  lemma {:induction false} IsOutputStringIff(s: string)
    ensures LooksLikeOutput(s) <==> exists uid, session, index :: s == OutputString(uid, session, index)
  {
    if LooksLikeOutput(s) {
      var uid, session, index := LooksLikeIs(s);
    }
    if uid, session, index :| s == OutputString(uid, session, index) {
      OutputLooks(uid, session, index);
    }
  }

  function KeyString(key: Key): string {
    match key
    case PromptKey(uid) => uid
    case OutputKey(uid, session, index) => OutputString(uid, session, index)
  }

  /** Prompts and outputs live in one dictionary without meeting, as long as no uid ends in two numbers itself. */
  lemma KeysDoNotCollide(k: Key, l: Key)
    requires k.PromptKey? ==> !LooksLikeOutput(k.uid)
    requires l.PromptKey? ==> !LooksLikeOutput(l.uid)
    ensures KeyString(k) == KeyString(l) <==> k == l
  {
    match (k, l)
    case (PromptKey(u), PromptKey(v)) =>
    case (PromptKey(u), OutputKey(v, t, j)) => IsOutputStringIff(u);
    case (OutputKey(u, s, i), PromptKey(v)) => IsOutputStringIff(v);
    case (OutputKey(u, s, i), OutputKey(v, t, j)) => OutputStringsAreDistinct(u, s, i, v, t, j);
  }

  /** Any other uid is also the key of an output of another uid. */
  lemma OtherUidsCollide(uid: string) returns (key: Key)
    requires LooksLikeOutput(uid)
    ensures key.OutputKey? && key.uid != uid && KeyString(key) == KeyString(PromptKey(uid))
  {
    IsOutputStringIff(uid);
    var u, s, i :| uid == OutputString(u, s, i);
    key := OutputKey(u, s, i);
  }
}
