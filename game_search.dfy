/** The games-list search box (`parseSearchQuery`): a tokenizer for the pattern
    `"([^"]+)"|(\S+)` and a dispatcher that fills one filter per recognised `key:` prefix. */
module GameSearch {
  import opened Wrappers
  import opened Text

  /** A calendar date, as `time.Parse("2006-01-02", …)` reads it. */
  datatype Date = Date(year: nat, month: nat, day: nat)

  /** The filters a query sets; empty strings and `None` mean "not set". */
  datatype SearchFilters = SearchFilters(
    winner: string, player: string, faction: string, agenda: string, relic: string,
    custodians: Option<bool>, roundsOp: string, roundsVal: Option<int>,
    after: Option<Date>, before: Option<Date>, freeText: seq<string>)

  const NoFilters := SearchFilters("", "", "", "", "", None, "", None, None, None, [])

  // ---------------------------------------------------------------- tokenizer

  /** RE2's `\s`: tab, newline, form feed, carriage return and space. */
  predicate IsReSpace(c: char)
  {
    c == '\t' || c == '\n' || c == '\U{000C}' || c == '\r' || c == ' '
  }

  /** The length of the longest prefix without a `\s` character (what `\S+` takes). */
  function RunLength(s: string): (n: nat)
    ensures n <= |s|
    ensures forall i :: 0 <= i < n ==> !IsReSpace(s[i])
    ensures n < |s| ==> IsReSpace(s[n])
  {
    if s == [] || IsReSpace(s[0]) then 0 else 1 + RunLength(s[1..])
  }

  /** The first `"` at or after position `i`. */
  function NextQuote(s: string, i: nat): (r: Option<nat>)
    requires i <= |s|
    ensures r.Some? ==> i <= r.value < |s| && s[r.value] == '"'
    ensures r.Some? ==> forall j :: i <= j < r.value ==> s[j] != '"'
    ensures r.None? ==> forall j :: i <= j < |s| ==> s[j] != '"'
    decreases |s| - i
  {
    if i == |s| then None else if s[i] == '"' then Some(i) else NextQuote(s, i + 1)
  }

  /** Where the first alternative `"([^"]+)"` ends when it matches at the start of `s`: the
      position of the closing quote, which leaves at least one character between the quotes. */
  function QuotedEnd(s: string): (r: Option<nat>)
    ensures r.Some? ==> 2 <= r.value < |s| && s[0] == '"' && s[r.value] == '"'
    ensures r.Some? ==> forall j :: 1 <= j < r.value ==> s[j] != '"'
    ensures r.None? && s != [] && s[0] == '"' ==> |s| < 3 || s[1] == '"' || forall j :: 1 <= j < |s| ==> s[j] != '"'
  {
    if s == [] || s[0] != '"' then None
    else match NextQuote(s, 1)
      case Some(q) => if q >= 2 then Some(q) else None
      case None => None
  }

  /** `tokRe.FindAllStringSubmatch(q, -1)`, keeping of each match the group that matched: the text
      between the quotes for a quoted run, otherwise the whole run of non-space characters. */
  function Tokens(s: string): seq<string>
    decreases |s|
  {
    if s == [] then []
    else if IsReSpace(s[0]) then Tokens(s[1..])
    else match QuotedEnd(s)
      case Some(q) => [s[1..q]] + Tokens(s[q + 1..])
      case None =>
        var n := RunLength(s);
        [s[..n]] + Tokens(s[n..])
  }

  /** No match is empty, so the loop's `token == ""` skip never fires. */
  lemma {:induction false} TokensNonEmpty(s: string)
    ensures forall k :: 0 <= k < |Tokens(s)| ==> Tokens(s)[k] != []
    decreases |s|
  {
    if s != [] {
      if IsReSpace(s[0]) {
        TokensNonEmpty(s[1..]);
      } else {
        match QuotedEnd(s)
        case Some(q) =>
          TokensNonEmpty(s[q + 1..]);
        case None =>
          TokensNonEmpty(s[RunLength(s)..]);
      }
    }
  }

  /** Without double quotes in the query, every token is a run of non-space characters. */
  lemma {:induction false} UnquotedTokensHaveNoSpace(s: string)
    requires forall i :: 0 <= i < |s| ==> s[i] != '"'
    ensures forall k, i :: 0 <= k < |Tokens(s)| && 0 <= i < |Tokens(s)[k]| ==> !IsReSpace(Tokens(s)[k][i])
    decreases |s|
  {
    if s != [] {
      if IsReSpace(s[0]) {
        UnquotedTokensHaveNoSpace(s[1..]);
      } else {
        assert QuotedEnd(s).None?;
        UnquotedTokensHaveNoSpace(s[RunLength(s)..]);
      }
    }
  }

  /** A word that does not open a quote is one whole token, whatever follows its first space. */
  lemma WordIsToken(w: string, rest: string)
    requires w != [] && w[0] != '"'
    requires forall i :: 0 <= i < |w| ==> !IsReSpace(w[i])
    requires rest == [] || IsReSpace(rest[0])
    ensures Tokens(w + rest) == [w] + Tokens(rest)
  {
    var s := w + rest;
    assert s[0] == w[0];
    RunOfWord(w, rest);
    assert s[..|w|] == w && s[|w|..] == rest;
  }

  lemma {:induction false} RunOfWord(w: string, rest: string)
    requires forall i :: 0 <= i < |w| ==> !IsReSpace(w[i])
    requires rest == [] || IsReSpace(rest[0])
    ensures RunLength(w + rest) == |w|
    decreases |w|
  {
    if w != [] {
      assert (w + rest)[1..] == w[1..] + rest;
      RunOfWord(w[1..], rest);
    } else {
      assert w + rest == rest;
    }
  }

  // ---------------------------------------------------------------- dispatch

  /** Which filter a token sets, decided on the lower-cased token in the order of the switch. */
  datatype Key = Winner | Player | Faction | Agenda | Relic | Custodians | Rounds | After | Before | Free

  const WinnerPrefix := "winner:"
  const PlayerPrefix := "player:"
  const FactionPrefix := "faction:"
  const AgendaPrefix := "agenda:"
  const RelicPrefix := "relic:"
  const CustodiansPrefix := "custodians:"
  const AfterPrefix := "after:"
  const BeforePrefix := "before:"

  /** The cases of the switch in their order: a token takes the key of the first prefix its
      lower-cased form starts with. */
  const KeyTable: seq<(string, Key)> :=
    [(WinnerPrefix, Winner), (PlayerPrefix, Player), (FactionPrefix, Faction),
     (AgendaPrefix, Agenda), (RelicPrefix, Relic), (CustodiansPrefix, Custodians),
     ("rounds>=", Rounds), ("rounds<=", Rounds), ("rounds=", Rounds),
     (AfterPrefix, After), (BeforePrefix, Before)]

  function KeyIn(lc: string, table: seq<(string, Key)>): Key
  {
    if table == [] then Free
    else if HasPrefix(lc, table[0].0) then table[0].1
    else KeyIn(lc, table[1..])
  }

  function KeyOf(lc: string): (r: Key)
    ensures HasOwnPrefix(r) ==> |PrefixOf(r)| <= |lc|
  {
    KeyInPrefix(lc, KeyTable);
    KeyIn(lc, KeyTable)
  }

  /** Every text key in the table is listed with its own prefix. */
  predicate TextPrefixes(table: seq<(string, Key)>)
  {
    forall i :: 0 <= i < |table| && HasOwnPrefix(table[i].1) ==> table[i].0 == PrefixOf(table[i].1)
  }

  lemma {:induction false} KeyInPrefix(lc: string, table: seq<(string, Key)>)
    requires TextPrefixes(table)
    ensures HasOwnPrefix(KeyIn(lc, table)) ==> HasPrefix(lc, PrefixOf(KeyIn(lc, table)))
  {
    if table != [] && !HasPrefix(lc, table[0].0) {
      assert TextPrefixes(table[1..]) by {
        forall i | 0 <= i < |table[1..]| && HasOwnPrefix(table[1..][i].1)
          ensures table[1..][i].0 == PrefixOf(table[1..][i].1)
        {
          assert table[1..][i] == table[i + 1];
        }
      }
      KeyInPrefix(lc, table[1..]);
    }
  }

  /** The switch takes the first case whose prefix the token starts with. */
  lemma {:induction false} KeyInFirst(lc: string, table: seq<(string, Key)>, i: nat)
    requires i < |table| && HasPrefix(lc, table[i].0)
    requires forall j :: 0 <= j < i ==> !HasPrefix(lc, table[j].0)
    ensures KeyIn(lc, table) == table[i].1
  {
    if i > 0 {
      assert !HasPrefix(lc, table[0].0);
      forall j | 0 <= j < i - 1
        ensures !HasPrefix(lc, table[1..][j].0)
      {
        assert table[1..][j] == table[j + 1];
      }
      KeyInFirst(lc, table[1..], i - 1);
    }
  }

  /** A token that starts with none of the prefixes is free text. */
  lemma {:induction false} KeyInNone(lc: string, table: seq<(string, Key)>)
    requires forall j :: 0 <= j < |table| ==> !HasPrefix(lc, table[j].0)
    ensures KeyIn(lc, table) == Free
  {
    if table != [] {
      assert !HasPrefix(lc, table[0].0);
      forall j | 0 <= j < |table| - 1
        ensures !HasPrefix(lc, table[1..][j].0)
      {
        assert table[1..][j] == table[j + 1];
      }
      KeyInNone(lc, table[1..]);
    }
  }

  /** A key other than free text and the rounds comparisons is only given to a token that starts
      with that key's prefix. */
  lemma KeyOfMeaning(lc: string)
    ensures HasOwnPrefix(KeyOf(lc)) ==> HasPrefix(lc, PrefixOf(KeyOf(lc)))
  {
    KeyInPrefix(lc, KeyTable);
  }

  /** Every key the switch gives comes from a case whose prefix the token starts with. */
  lemma {:induction false} KeyInFrom(lc: string, table: seq<(string, Key)>)
    ensures KeyIn(lc, table) != Free ==>
      exists i :: 0 <= i < |table| && table[i].1 == KeyIn(lc, table) && HasPrefix(lc, table[i].0)
  {
    if table != [] && !HasPrefix(lc, table[0].0) {
      KeyInFrom(lc, table[1..]);
      if KeyIn(lc, table) != Free {
        var i :| 0 <= i < |table[1..]| && table[1..][i].1 == KeyIn(lc, table) && HasPrefix(lc, table[1..][i].0);
        assert table[i + 1] == table[1..][i];
      }
    }
  }

  /** The keys whose value is the rest of the token, as text. */
  predicate IsTextKey(k: Key)
  {
    k.Winner? || k.Player? || k.Faction? || k.Agenda? || k.Relic?
  }

  /** The keys matched by a single prefix (all but the rounds comparisons and free text). */
  predicate HasOwnPrefix(k: Key)
  {
    !k.Rounds? && !k.Free?
  }

  function PrefixOf(k: Key): string
    requires HasOwnPrefix(k)
  {
    match k
    case Winner => WinnerPrefix
    case Player => PlayerPrefix
    case Faction => FactionPrefix
    case Agenda => AgendaPrefix
    case Relic => RelicPrefix
    case Custodians => CustodiansPrefix
    case After => AfterPrefix
    case Before => BeforePrefix
  }

  /** The key a token sets (an empty token sets none). */
  function TokenKey(token: string): Key
  {
    if token == [] then Free else KeyOf(ToLower(token))
  }

  /** As written: `strings.Trim(strings.TrimPrefix(token, prefix), "\"")`. The key was matched on
      the lower-cased token, but the prefix is cut from the original one, so it is removed only
      when the token spells it in lower case. */
  function PrefixValueAsWritten(token: string, prefix: string): string
  {
    TrimChar(TrimPrefix(token, prefix), '"')
  }

  /** Corrected: cut as many characters as the matched prefix has, whatever their case. */
  function PrefixValue(token: string, prefix: string): string
    requires |prefix| <= |token|
  {
    TrimChar(token[|prefix|..], '"')
  }

  /** Which of the two readings of a text filter's value a parse uses: the one the loop
      performs, or the case-blind cut it evidently intends. */
  datatype Reading = AsWritten | AnyCaseKey

  /** The value a text-key token carries under reading `rd`. */
  function KeyValue(token: string, prefix: string, rd: Reading): string
    requires |prefix| <= |token|
  {
    match rd
    case AsWritten => PrefixValueAsWritten(token, prefix)
    case AnyCaseKey => PrefixValue(token, prefix)
  }

  /** The value after a key does not depend on how the key is capitalised. */
  lemma PrefixValueIgnoresKeyCase(key: string, v: string, prefix: string)
    requires ToLower(key) == prefix
    ensures PrefixValue(key + v, prefix) == TrimChar(v, '"')
  {
    assert (key + v)[|prefix|..] == v;
  }

  /** On a token that spells its key in lower case both readings agree. */
  lemma AsWrittenAgreesOnLowerKey(v: string, prefix: string)
    ensures PrefixValueAsWritten(prefix + v, prefix) == PrefixValue(prefix + v, prefix)
  {
    assert (prefix + v)[..|prefix|] == prefix;
    assert (prefix + v)[|prefix|..] == v;
  }

  /** "Winner:Alice" is recognised as a winner filter, but the value kept as written is the whole
      token, so the filter searches for a winner named "Winner:Alice" rather than "Alice". */
  lemma CapitalisedKeyKept()
    ensures TokenKey("Winner:Alice") == Winner
    ensures Step(NoFilters, "Winner:Alice", AsWritten).winner == "Winner:Alice"
    ensures Step(NoFilters, "Winner:Alice", AnyCaseKey).winner == "Alice"
  {
    WinnerAliceKey();
    WinnerAliceAsWritten();
    WinnerAliceIntended();
  }

  lemma WinnerAliceKey()
    ensures KeyOf(ToLower("Winner:Alice")) == Winner
  {
    var lc := ToLower("Winner:Alice");
    assert lc[..7] == WinnerPrefix by {
      forall i | 0 <= i < 7
        ensures lc[i] == WinnerPrefix[i]
      {
      }
    }
    KeyInFirst(lc, KeyTable, 0);
  }

  lemma WinnerAliceAsWritten()
    ensures PrefixValueAsWritten("Winner:Alice", WinnerPrefix) == "Winner:Alice"
  {
    var t := "Winner:Alice";
    assert !HasPrefix(t, WinnerPrefix) by { assert t[0] != WinnerPrefix[0]; }
    assert TrimLeftChar(t, '"') == t;
    assert TrimRightChar(t, '"') == t;
  }

  lemma WinnerAliceIntended()
    ensures PrefixValue("Winner:Alice", WinnerPrefix) == "Alice"
  {
    var t := "Winner:Alice";
    assert t[7..] == "Alice";
    assert TrimLeftChar("Alice", '"') == "Alice";
    assert TrimRightChar("Alice", '"') == "Alice";
  }

  /** The comparison `rounds` uses: "<=" when the token contains "<=", "=" for a plain
      `rounds=`, otherwise ">=". */
  function RoundsOp(lc: string): string
  {
    var op := if Contains(lc, "<=") then "<=" else ">=";
    if Contains(lc, "rounds=") && !Contains(lc, "<=") && !Contains(lc, ">=") then "=" else op
  }

  /** `strings.SplitN(token, op, 2)[1]` when there are two parts. */
  function AfterOp(token: string, op: string): (r: Option<string>)
    ensures r.None? <==> !Contains(token, op)
  {
    ContainsIndexOf(token, op);
    match IndexOf(token, op)
    case Some(i) => Some(token[i + |op|..])
    case None => None
  }

  /** Days in a month of the proleptic Gregorian calendar. */
  function DaysIn(month: nat, year: nat): nat
    requires 1 <= month <= 12
  {
    if month == 2 then (if year % 4 == 0 && (year % 100 != 0 || year % 400 == 0) then 29 else 28)
    else if month == 4 || month == 6 || month == 9 || month == 11 then 30
    else 31
  }

  function DigitAt(s: string, i: nat): nat
    requires i < |s| && IsDigit(s[i])
  {
    s[i] as int - '0' as int
  }

  /** `time.Parse("2006-01-02", s)`: exactly four year digits, a dash, two month digits, a dash
      and two day digits, with the month in 1..12 and the day within the month. */
  function ParseDate(s: string): (r: Option<Date>)
    ensures r.Some? ==> 1 <= r.value.month <= 12 && 1 <= r.value.day <= DaysIn(r.value.month, r.value.year)
    ensures r.Some? ==> r.value.year <= 9999 && |s| == 10
  {
    if |s| != 10 || s[4] != '-' || s[7] != '-' then None
    else if !(IsDigit(s[0]) && IsDigit(s[1]) && IsDigit(s[2]) && IsDigit(s[3])
              && IsDigit(s[5]) && IsDigit(s[6]) && IsDigit(s[8]) && IsDigit(s[9])) then None
    else
      var year := DigitAt(s, 0) * 1000 + DigitAt(s, 1) * 100 + DigitAt(s, 2) * 10 + DigitAt(s, 3);
      var month := DigitAt(s, 5) * 10 + DigitAt(s, 6);
      var day := DigitAt(s, 8) * 10 + DigitAt(s, 9);
      if month < 1 || month > 12 then None
      else if day < 1 || day > DaysIn(month, year) then None
      else Some(Date(year, month, day))
  }

  const CustodiansYes: set<string> := {"true", "1", "yes"}
  const CustodiansNo: set<string> := {"false", "0", "no"}

  /** One pass of the loop: the filters after reading one token. */
  function Step(f: SearchFilters, token: string, rd: Reading): SearchFilters
  {
    if token == [] then f else StepKey(f, token, KeyOf(ToLower(token)), rd)
  }

  /** The branch of the switch for key `k`. */
  function StepKey(f: SearchFilters, token: string, k: Key, rd: Reading): SearchFilters
    requires token != [] && k == KeyOf(ToLower(token))
  {
    match k
    case Winner => f.(winner := KeyValue(token, WinnerPrefix, rd))
    case Player => f.(player := KeyValue(token, PlayerPrefix, rd))
    case Faction => f.(faction := KeyValue(token, FactionPrefix, rd))
    case Agenda => f.(agenda := KeyValue(token, AgendaPrefix, rd))
    case Relic => f.(relic := KeyValue(token, RelicPrefix, rd))
    case Custodians => CustodiansStep(f, TrimChar(TrimPrefix(ToLower(token), CustodiansPrefix), '"'))
    case Rounds => RoundsStep(f, token, RoundsOp(ToLower(token)))
    case After => f.(after := OrElse(ParseDate(token[|AfterPrefix|..]), f.after))
    case Before => f.(before := OrElse(ParseDate(token[|BeforePrefix|..]), f.before))
    case Free => f.(freeText := f.freeText + [TrimChar(token, '"')])
  }

  /** A date filter is replaced only by a date that parses. */
  function OrElse(d: Option<Date>, old_: Option<Date>): Option<Date>
  {
    if d.Some? then d else old_
  }

  function CustodiansStep(f: SearchFilters, v: string): (r: SearchFilters)
    ensures r == f.(custodians := r.custodians)
  {
    if v in CustodiansYes then f.(custodians := Some(true))
    else if v in CustodiansNo then f.(custodians := Some(false))
    else f
  }

  /** `rounds`: the operator and value are set together, and only when the part after the
      operator is an integer. */
  function RoundsStep(f: SearchFilters, token: string, op: string): (r: SearchFilters)
    ensures r == f.(roundsOp := r.roundsOp, roundsVal := r.roundsVal)
  {
    match AfterOp(token, op)
    case Some(v) =>
      (match Atoi(v)
       case Some(n) => f.(roundsOp := op, roundsVal := Some(n))
       case None => f)
    case None => f
  }

  /** The filters after reading a sequence of tokens in order. */
  function ParseTokens(f: SearchFilters, ts: seq<string>, rd: Reading): SearchFilters
  {
    if ts == [] then f else Step(ParseTokens(f, ts[..|ts| - 1], rd), ts[|ts| - 1], rd)
  }

  /** Reading one more token is one more step. */
  lemma ParseTokensNext(f: SearchFilters, ts: seq<string>, i: nat, rd: Reading)
    requires i < |ts|
    ensures ParseTokens(f, ts[..i + 1], rd) == Step(ParseTokens(f, ts[..i], rd), ts[i], rd)
  {
    assert ts[..i + 1][..i] == ts[..i];
  }

  /** The filters a query sets. */
  function Parsed(q: string, rd: Reading): SearchFilters
  {
    var t := TrimSpace(q);
    if t == [] then NoFilters else ParseTokens(NoFilters, Tokens(t), rd)
  }

  /** parseSearchQuery: trim, tokenize and read the tokens in order. It never fails. */
  method ParseSearchQuery(q: string) returns (f: SearchFilters)
    ensures f == Parsed(q, AsWritten)
  {
    var t := TrimSpace(q);
    f := NoFilters;
    if t == [] {
      return;
    }
    var matches := Tokens(t);
    var i := 0;
    while i < |matches|
      invariant i <= |matches|
      invariant f == ParseTokens(NoFilters, matches[..i], AsWritten)
    {
      ParseTokensNext(NoFilters, matches, i, AsWritten);
      f := ReadToken(f, matches[i]);
      i := i + 1;
    }
    assert matches[..i] == matches;
  }

  /** The body of the loop: the switch on the lower-cased token, whose first matching case
      `KeyOf` names. */
  method ReadToken(f0: SearchFilters, token: string) returns (f: SearchFilters)
    ensures f == Step(f0, token, AsWritten)
  {
    f := f0;
    if token == [] {
      return;
    }
    var lc := ToLower(token);
    match KeyOf(lc)
    case Winner =>
      f := f.(winner := PrefixValueAsWritten(token, WinnerPrefix));
    case Player =>
      f := f.(player := PrefixValueAsWritten(token, PlayerPrefix));
    case Faction =>
      f := f.(faction := PrefixValueAsWritten(token, FactionPrefix));
    case Agenda =>
      f := f.(agenda := PrefixValueAsWritten(token, AgendaPrefix));
    case Relic =>
      f := f.(relic := PrefixValueAsWritten(token, RelicPrefix));
    case Custodians =>
      var v := TrimChar(TrimPrefix(lc, CustodiansPrefix), '"');
      if v in CustodiansYes {
        f := f.(custodians := Some(true));
      } else if v in CustodiansNo {
        f := f.(custodians := Some(false));
      }
    case Rounds =>
      f := ReadRounds(f, token, lc);
    case After =>
      var d := ParseDate(token[|AfterPrefix|..]);
      if d.Some? {
        f := f.(after := d);
      }
    case Before =>
      var d := ParseDate(token[|BeforePrefix|..]);
      if d.Some? {
        f := f.(before := d);
      }
    case Free =>
      f := f.(freeText := f.freeText + [TrimChar(token, '"')]);
  }

  /** The `rounds` branch: pick the operator, split once on it and read the integer after it. */
  method ReadRounds(f0: SearchFilters, token: string, lc: string) returns (f: SearchFilters)
    ensures f == RoundsStep(f0, token, RoundsOp(lc))
  {
    f := f0;
    var op := ">=";
    if Contains(lc, "<=") {
      op := "<=";
    }
    if Contains(lc, "rounds=") && !Contains(lc, "<=") && !Contains(lc, ">=") {
      op := "=";
    }
    var parts := AfterOp(token, op);
    if parts.Some? {
      var n := Atoi(parts.value);
      if n.Some? {
        f := f.(roundsOp := op, roundsVal := n);
      }
    }
  }

  // ---------------------------------------------------------------- properties

  /** An empty or all-space query sets no filter. */
  lemma BlankQuerySetsNothing(q: string)
    requires IsBlank(q)
    ensures Parsed(q, AsWritten) == NoFilters
    ensures Parsed(q, AnyCaseKey) == NoFilters
  {
    TrimSpaceEmpty(q);
  }

  /** The text filter a key sets. */
  function TextField(f: SearchFilters, k: Key): string
    requires IsTextKey(k)
  {
    match k
    case Winner => f.winner
    case Player => f.player
    case Faction => f.faction
    case Agenda => f.agenda
    case Relic => f.relic
  }

  /** A token changes only the filter of its own key. */
  lemma StepChangesOnlyItsKey(f: SearchFilters, token: string, k: Key, rd: Reading)
    requires IsTextKey(k)
    ensures TokenKey(token) == k ==> TextField(Step(f, token, rd), k) == KeyValue(token, PrefixOf(k), rd)
    ensures TokenKey(token) != k ==> TextField(Step(f, token, rd), k) == TextField(f, k)
    ensures !TokenKey(token).Free? ==> Step(f, token, rd).freeText == f.freeText
  {
    if token != [] {
      var t := KeyOf(ToLower(token));
      var g := StepKey(f, token, t, rd);
      assert Step(f, token, rd) == g;
      match t
      case Custodians =>
        assert g == f.(custodians := g.custodians);
      case Rounds =>
        assert g == f.(roundsOp := g.roundsOp, roundsVal := g.roundsVal);
      case After =>
        assert g == f.(after := g.after);
      case Before =>
        assert g == f.(before := g.before);
      case _ =>
    }
  }

  /** Under the intended reading a text filter gets the value after its key however the key is
      capitalised. */
  lemma IntendedValueIgnoresKeyCase(f: SearchFilters, key: string, v: string, k: Key)
    requires IsTextKey(k) && TokenKey(key + v) == k && ToLower(key) == PrefixOf(k)
    ensures TextField(Step(f, key + v, AnyCaseKey), k) == TrimChar(v, '"')
  {
    StepChangesOnlyItsKey(f, key + v, k, AnyCaseKey);
    PrefixValueIgnoresKeyCase(key, v, PrefixOf(k));
  }

  /** The position of the last token with key `k`, if any. */
  function LastOf(ts: seq<string>, k: Key): (r: Option<nat>)
    ensures r.Some? ==> r.value < |ts| && TokenKey(ts[r.value]) == k
    ensures r.Some? ==> forall l :: r.value < l < |ts| ==> TokenKey(ts[l]) != k
    ensures r.None? ==> forall l :: 0 <= l < |ts| ==> TokenKey(ts[l]) != k
  {
    if ts == [] then None
    else if TokenKey(ts[|ts| - 1]) == k then Some(|ts| - 1)
    else LastOf(ts[..|ts| - 1], k)
  }

  /** The value the last token with key `k` carries, or "" when there is none. */
  function LastValue(ts: seq<string>, k: Key, rd: Reading): string
    requires IsTextKey(k)
  {
    match LastOf(ts, k)
    case None => ""
    case Some(j) => KeyValue(ts[j], PrefixOf(k), rd)
  }

  /** A text filter holds the value of the last token with its key: a later token for the same
      key overwrites an earlier one, and no such token leaves the filter empty. */
  lemma {:induction false} LastTokenWins(ts: seq<string>, k: Key, rd: Reading)
    requires IsTextKey(k)
    ensures TextField(ParseTokens(NoFilters, ts, rd), k) == LastValue(ts, k, rd)
  {
    if ts != [] {
      var n := |ts| - 1;
      LastTokenWins(ts[..n], k, rd);
      StepChangesOnlyItsKey(ParseTokens(NoFilters, ts[..n], rd), ts[n], k, rd);
      if TokenKey(ts[n]) != k {
        match LastOf(ts[..n], k)
        case None =>
        case Some(j) => assert ts[..n][j] == ts[j];
      }
    }
  }

  /** The unrecognised tokens, quotes trimmed, in query order. */
  function FreeWords(ts: seq<string>): seq<string>
  {
    if ts == [] then []
    else FreeWords(ts[..|ts| - 1])
         + (if ts[|ts| - 1] != [] && TokenKey(ts[|ts| - 1]).Free? then [TrimChar(ts[|ts| - 1], '"')] else [])
  }

  /** Free text collects exactly the unrecognised tokens, in order. */
  lemma {:induction false} FreeTextInOrder(ts: seq<string>, rd: Reading)
    ensures ParseTokens(NoFilters, ts, rd).freeText == FreeWords(ts)
  {
    if ts != [] {
      var n := |ts| - 1;
      FreeTextInOrder(ts[..n], rd);
      FreeTextStep(ParseTokens(NoFilters, ts[..n], rd), ts[n], rd);
    }
  }

  lemma FreeTextStep(f: SearchFilters, token: string, rd: Reading)
    ensures Step(f, token, rd).freeText
            == f.freeText + (if token != [] && TokenKey(token).Free? then [TrimChar(token, '"')] else [])
  {
  }

  /** `custodians:` sets true for true/1/yes, false for false/0/no, and leaves the filter alone
      for any other value. */
  lemma CustodiansValues(f: SearchFilters, v: string)
    ensures v in CustodiansYes ==> CustodiansStep(f, v).custodians == Some(true)
    ensures v in CustodiansNo ==> CustodiansStep(f, v).custodians == Some(false)
    ensures v !in CustodiansYes && v !in CustodiansNo ==> CustodiansStep(f, v) == f
  {
  }

  /** Lower-casing leaves characters that are not lower-case letters where they were. */
  lemma {:induction false} OccursBeforeLower(token: string, op: string, j: nat)
    requires OccursAt(ToLower(token), op, j)
    requires forall m :: 0 <= m < |op| ==> !IsAsciiLower(op[m])
    ensures OccursAt(token, op, j)
  {
    var lc := ToLower(token);
    forall m | 0 <= m < |op|
      ensures token[j + m] == op[m]
    {
      assert lc[j..j + |op|][m] == lc[j + m];
    }
    assert token[j..j + |op|] == op;
  }

  /** A rounds token always holds the operator chosen for it, so the split on that operator
      always yields a value part. */
  lemma RoundsTokenSplits(token: string)
    requires TokenKey(token) == Rounds
    ensures AfterOp(token, RoundsOp(ToLower(token))).Some?
  {
    var lc := ToLower(token);
    KeyInFrom(lc, KeyTable);
    var i :| 0 <= i < |KeyTable| && KeyTable[i].1 == Rounds && HasPrefix(lc, KeyTable[i].0);
    assert i == 6 || i == 7 || i == 8;
    assert OccursAt(lc, "rounds", 0) by {
      assert lc[..|KeyTable[i].0|][..6] == lc[..6];
    }
    if i == 6 {
      assert lc[6..8] == lc[..8][6..8];
      assert OccursAt(lc, ">=", 6);
    } else if i == 7 {
      assert lc[6..8] == lc[..8][6..8];
      assert OccursAt(lc, "<=", 6);
    } else {
      assert OccursAt(lc, "rounds=", 0);
      assert lc[6..7] == lc[..7][6..7];
    }
    var op := RoundsOp(lc);
    var j: nat;
    if Contains(lc, "<=") {
      j :| j <= |lc| && OccursAt(lc, "<=", j);
    } else if Contains(lc, ">=") {
      j :| j <= |lc| && OccursAt(lc, ">=", j);
    } else {
      j := 6;
    }
    assert OccursAt(lc, op, j);
    OccursBeforeLower(token, op, j);
    assert Contains(token, op);
  }
}
