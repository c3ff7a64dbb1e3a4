/**
 * The decision logic of the iOS new-wallet wizard: the name/password form,
 * the navigation parameters handed from screen to screen, the seed-retype
 * screen (word position, enabled keys, suggestion buttons, the final seed
 * comparison) and the onboarding page list.
 *
 * The wallet library (`check_wallet_exists`), `utils.pathsafeify` and the
 * mnemonic word list (`get_suggestions`) are foreign code; they enter the
 * model as function parameters.
 */
module NewWallet {
  import opened Wrappers
  import opened Words

  // ---------------------------------------------------------------------
  // Name and password form (NewWalletVC)
  // ---------------------------------------------------------------------

  /** The four messages the form can show, in the order they are checked. */
  datatype FormError = NameEmpty | NameExists | PasswordEmpty | PasswordMismatch

  /** The form's verdict: the first failing condition, or None when all pass. */
  function FormCheck(name: string, nameExists: bool, pw1: string, pw2: string): (r: Option<FormError>)
    ensures r == None <==> name != "" && !nameExists && pw1 != "" && pw1 == pw2
    ensures r == Some(NameEmpty) <==> name == ""
    ensures r == Some(NameExists) <==> name != "" && nameExists
    ensures r == Some(PasswordEmpty) <==> name != "" && !nameExists && pw1 == ""
    ensures r == Some(PasswordMismatch) <==> name != "" && !nameExists && pw1 != "" && pw1 != pw2
  {
    if name == "" then Some(NameEmpty)
    else if nameExists then Some(NameExists)
    else if pw1 == "" then Some(PasswordEmpty)
    else if pw1 != pw2 then Some(PasswordMismatch)
    else None
  }

  const MaxNameLength := 30

  /** Python's `s[:30]`. */
  function TruncatedName(s: string): (r: string)
    ensures |r| <= MaxNameLength && r <= s
    ensures |s| <= MaxNameLength ==> r == s
    ensures |s| > MaxNameLength ==> |r| == MaxNameLength
  {
    if |s| <= MaxNameLength then s else s[..MaxNameLength]
  }

  datatype TextField = WalletNameField | PasswordField | ConfirmField

  class NewWalletForm {
    var walletName: string
    var walletPw1: string
    var walletPw2: string
    /** The message the error label holds; None until a failure was shown. */
    var errMsg: Option<FormError>
    var errMsgHidden: bool

    constructor ()
      ensures walletName == "" && walletPw1 == "" && walletPw2 == ""
      ensures errMsg == None && errMsgHidden
    {
      walletName, walletPw1, walletPw2 := "", "", "";
      errMsg, errMsgHidden := None, true;
    }

    /** `textFieldDidEndEditing_`: the name field is made path-safe and cut to 30 characters. */
    method EndEditing(tf: TextField, pathsafe: string -> string)
      modifies this
      ensures tf == WalletNameField ==> walletName == TruncatedName(pathsafe(old(walletName)))
      ensures tf != WalletNameField ==> walletName == old(walletName)
      ensures walletPw1 == old(walletPw1) && walletPw2 == old(walletPw2)
      ensures errMsg == old(errMsg) && errMsgHidden == old(errMsgHidden)
    {
      if tf == WalletNameField {
        walletName := TruncatedName(pathsafe(walletName));
      }
    }

    /**
     * `doChkFormOk`: the name is made path-safe, then checked; a failure
     * replaces the label's message, and the error view is hidden exactly
     * when the form passes.
     */
    method ChkFormOk(pathsafe: string -> string, walletExists: string -> bool) returns (ok: bool)
      modifies this
      ensures walletName == pathsafe(old(walletName))
      ensures walletPw1 == old(walletPw1) && walletPw2 == old(walletPw2)
      ensures ok <==> FormCheck(walletName, walletExists(walletName), walletPw1, walletPw2) == None
      ensures errMsgHidden == ok
      ensures errMsg == if ok then old(errMsg) else FormCheck(walletName, walletExists(walletName), walletPw1, walletPw2)
    {
      walletName := pathsafe(walletName);
      var err := FormCheck(walletName, walletExists(walletName), walletPw1, walletPw2);
      if err.Some? {
        errMsg := err;
      }
      errMsgHidden := err.None?;
      ok := err.None?;
    }

    /** `prepareForSegue_sender_`: hands the name and the confirmed password on. */
    method PrepareForSegue(nav: Navigation)
      modifies nav
      ensures nav.params ==
        AfterSetParam(AfterSetParam(old(nav.params), "WalletName", Str(walletName)), "WalletPass", Str(walletPw2))
    {
      nav.SetParam("WalletName", Str(walletName));
      nav.SetParam("WalletPass", Str(walletPw2));
    }
  }

  // ---------------------------------------------------------------------
  // Navigation parameters (_Params / _SetParam)
  // ---------------------------------------------------------------------

  /** The values the wizard stores: strings, the seed's word list, flags, or None. */
  datatype ParamValue = Str(s: string) | StrList(l: seq<string>) | Flag(b: bool) | Null

  /** Python truthiness of a parameter value. */
  predicate Falsy(v: ParamValue)
  {
    match v
    case Str(s) => s == ""
    case StrList(l) => l == []
    case Flag(b) => !b
    case Null => true
  }

  type Params = map<string, ParamValue>

  /** The dictionary after `_SetParam(key, v)`: a falsy value removes the key, any other is stored. */
  function AfterSetParam(d: Params, key: string, v: ParamValue): (r: Params)
    ensures key in r <==> !Falsy(v)
    ensures key in r ==> r[key] == v
    ensures forall k :: k != key ==> (k in r <==> k in d)
    ensures forall k :: k != key && k in r ==> r[k] == d[k]
  {
    if Falsy(v) then d - {key} else d[key := v]
  }

  /** Setting the same value twice is setting it once. */
  lemma SetParamIdempotent(d: Params, key: string, v: ParamValue)
    ensures AfterSetParam(AfterSetParam(d, key, v), key, v) == AfterSetParam(d, key, v)
  {
  }

  /** Updates of different keys do not interfere. */
  lemma SetParamCommutes(d: Params, k1: string, v1: ParamValue, k2: string, v2: ParamValue)
    requires k1 != k2
    ensures AfterSetParam(AfterSetParam(d, k1, v1), k2, v2) == AfterSetParam(AfterSetParam(d, k2, v2), k1, v1)
  {
    var a := AfterSetParam(AfterSetParam(d, k1, v1), k2, v2);
    var b := AfterSetParam(AfterSetParam(d, k2, v2), k1, v1);
    assert a.Keys == b.Keys;
    assert forall k :: k in a ==> a[k] == b[k];
  }

  /** The navigation controller, which owns the parameter dictionary the wizard screens share. */
  class Navigation {
    var params: Params

    constructor ()
      ensures params == map[]
    {
      params := map[];
    }

    method SetParam(key: string, v: ParamValue)
      modifies this
      ensures params == AfterSetParam(old(params), key, v)
    {
      if Falsy(v) {
        params := params - {key};
      } else {
        params := params[key := v];
      }
    }
  }

  // ---------------------------------------------------------------------
  // Seed display screen (NewWalletSeed1)
  // ---------------------------------------------------------------------

  /** `bool(self.seed)`: the segue proceeds only once a non-empty seed exists. */
  predicate SeedReady(seed: Option<string>)
  {
    seed.Some? && seed.value != ""
  }

  /**
   * `prepareForSegue_sender_` of the seed screen: stores the seed and its
   * word list, and hands both to the retype screen. The destination is
   * taken to be that screen, `NewWalletSeed2`.
   */
  method PrepareSeedSegue(nav: Navigation, seed: string) returns (destSeed: string, destSeedList: seq<string>)
    modifies nav
    ensures nav.params ==
      AfterSetParam(AfterSetParam(old(nav.params), "seed", Str(seed)), "seed_list", StrList(Split(seed)))
    ensures destSeed == seed && destSeedList == Split(seed)
  {
    var sl := Split(seed);
    nav.SetParam("seed", Str(seed));
    nav.SetParam("seed_list", StrList(sl));
    destSeed, destSeedList := seed, sl;
  }

  // ---------------------------------------------------------------------
  // Seed retype screen (NewWalletSeed2)
  // ---------------------------------------------------------------------

  /** Which seed word is being typed, and the part of it typed so far. */
  datatype Position = Position(wordNum: nat, prefix: string)

  /**
   * The `wordNum`/`prefix` computation of `doSuggestions` on the lower-cased
   * text. None stands for the IndexError `words[-1]` raises when the text is
   * all whitespace but does not end in a plain space.
   */
  function WordPosition(t: string): (r: Option<Position>)
    ensures r.None? <==> t != [] && t[|t| - 1] != ' ' && forall i :: 0 <= i < |t| ==> IsSpace(t[i])
    ensures r.Some? ==> r.value.wordNum <= |Split(t)|
    ensures t == [] || t[|t| - 1] == ' ' ==> r == Some(Position(|Split(t)|, ""))
    ensures t != [] && t[|t| - 1] != ' ' && Split(t) != [] ==>
      r == Some(Position(|Split(t)| - 1, Split(t)[|Split(t)| - 1]))
  {
    SplitBlank(t);
    var words := Split(t);
    if t != [] && t[|t| - 1] != ' ' then
      if words == [] then None else Some(Position(|words| - 1, words[|words| - 1]))
    else
      Some(Position(|words|, ""))
  }

  /**
   * While a word is being typed, the prefix is the run of characters at the
   * end of the text and `wordNum` counts the words completed before it.
   */
  lemma PositionInWord(t: string)
    requires t != [] && !IsSpace(t[|t| - 1])
    ensures WordPosition(t).Some?
    ensures var p := WordPosition(t).value;
      && IsWord(p.prefix) && |p.prefix| <= |t|
      && t[|t| - |p.prefix|..] == p.prefix
      && Split(t) == Split(t[..|t| - |p.prefix|]) + [p.prefix]
      && p.wordNum == |Split(t[..|t| - |p.prefix|])|
  {
    var n := TrailingWordLen(t);
    SplitLastWord(t, n);
    TrailingRunIsWord(t);
    var before, last := Split(t[..|t| - n]), t[|t| - n..];
    assert Split(t) == before + [last];
    assert WordPosition(t) == Some(Position(|before|, last));
  }

  /**
   * Only a final `' '` ends a word: after any other whitespace, such as a
   * newline, the word just completed is still taken as the prefix being typed.
   */
  lemma WordPositionAfterNewline()
    ensures WordPosition("abc\n") == Some(Position(0, "abc"))
  {
    var t := "abc\n";
    assert t[..|t| - 1] == "abc" && t[|t| - 1] == '\n';
    SplitDropSpace(t);
    SplitWord("abc");
    assert Split(t) == ["abc"];
  }

  /** A final `' '` ends the word: the next word starts with an empty prefix. */
  lemma WordPositionAfterSpace()
    ensures WordPosition("abc ") == Some(Position(1, ""))
  {
    var t := "abc ";
    assert t[..|t| - 1] == "abc" && t[|t| - 1] == ' ';
    SplitDropSpace(t);
    SplitWord("abc");
    assert Split(t) == ["abc"];
  }

  /** The seed word expected at position `k`; past the end, a text that matches no suggestion. */
  function CurrentSeedWord(seedList: seq<string>, k: nat): (w: string)
    ensures k < |seedList| ==> w == seedList[k]
    ensures k >= |seedList| ==> w == "TOO MANY WORDS!"
  {
    if k < |seedList| then seedList[k] else "TOO MANY WORDS!"
  }

  /** The keyboard's keys: backspace and the letters A to Z. */
  datatype Key = Backspace | Letter(c: char)

  /** `sug[len(prefix)].upper()` for every suggestion longer than the prefix. */
  function ValidChars(suggestions: seq<string>, prefix: string): set<char>
  {
    set i | 0 <= i < |suggestions| && |suggestions[i]| > |prefix| :: UpperChar(suggestions[i][|prefix|])
  }

  /** The keys enabled after `disableAllKeys`: backspace and the valid letters. */
  function EnabledKeys(valid: set<char>): (keys: set<Key>)
    ensures Backspace in keys
    ensures forall c :: Letter(c) in keys <==> c in valid
  {
    {Backspace} + set c | c in valid :: Letter(c)
  }

  /** The loop of `doSuggestions` that collects the valid characters. */
  method CollectValidChars(suggestions: seq<string>, prefix: string) returns (valid: set<char>)
    ensures valid == ValidChars(suggestions, prefix)
  {
    valid := {};
    for i := 0 to |suggestions|
      invariant valid == set j | 0 <= j < i && |suggestions[j]| > |prefix| :: UpperChar(suggestions[j][|prefix|])
    {
      var l := |prefix|;
      if |suggestions[i]| > l {
        valid := valid + {UpperChar(suggestions[i][l])};
      }
    }
  }

  function LowerLetter(c: char): bool { 'a' <= c <= 'z' }

  /**
   * When every suggestion extends the prefix and is spelled in lower-case
   * letters, an upper-case key is enabled exactly when typing it keeps the
   * text on the way to some suggestion.
   */
  lemma ValidCharsContinuePrefix(suggestions: seq<string>, prefix: string, c: char)
    requires forall w :: w in suggestions ==> prefix <= w && forall k :: 0 <= k < |w| ==> LowerLetter(w[k])
    requires 'A' <= c <= 'Z'
    ensures c in ValidChars(suggestions, prefix) <==> exists w :: w in suggestions && prefix + [LowerChar(c)] <= w
  {
    if c in ValidChars(suggestions, prefix) {
      var i :| 0 <= i < |suggestions| && |suggestions[i]| > |prefix| && UpperChar(suggestions[i][|prefix|]) == c;
      var w := suggestions[i];
      assert LowerLetter(w[|prefix|]);
      assert LowerChar(c) == w[|prefix|];
      assert prefix + [LowerChar(c)] == w[..|prefix| + 1];
    }
    if exists w :: w in suggestions && prefix + [LowerChar(c)] <= w {
      var w :| w in suggestions && prefix + [LowerChar(c)] <= w;
      var i :| 0 <= i < |suggestions| && suggestions[i] == w;
      assert w[|prefix|] == LowerChar(c);
      assert UpperChar(w[|prefix|]) == c;
    }
  }

  predicate Distinct<T(==)>(s: seq<T>)
  {
    forall i, j :: 0 <= i < j < |s| ==> s[i] != s[j]
  }

  function Min(a: int, b: int): int { if a < b then a else b }

  /**
   * What the suggestion buttons show when there are fewer than ten
   * suggestions: up to four of them, always including the expected word.
   */
  predicate ChoiceOk(chosen: set<string>, suggestions: seq<string>, current: string)
  {
    && (forall w :: w in chosen ==> w in suggestions)
    && |chosen| == Min(|suggestions|, 4)
    && (current in suggestions ==> current in chosen)
  }

  lemma {:induction false} DistinctCard<T>(s: seq<T>)
    requires Distinct(s)
    ensures |set x | x in s| == |s|
  {
    if s != [] {
      DistinctCard(s[1..]);
      assert (set x | x in s) == {s[0]} + (set x | x in s[1..]);
      assert s[0] !in (set x | x in s[1..]);
    }
  }

  lemma SubsetCard<T>(a: set<T>, b: set<T>)
    requires a <= b
    ensures |a| <= |b|
  {
    assert b == a + (b - a);
  }

  /**
   * The `sugSet` loop: starts from the expected word when it is offered and
   * adds suggestions until there are four or none are left. The source draws
   * random indices and discards repeats; the model draws among the words not
   * yet chosen.
   */
  method ChooseSuggestions(suggestions: seq<string>, current: string) returns (chosen: set<string>)
    requires Distinct(suggestions)
    ensures ChoiceOk(chosen, suggestions, current)
  {
    ghost var offered := set x | x in suggestions;
    DistinctCard(suggestions);
    chosen := {};
    if current in suggestions {
      chosen := {current};
    }
    while |chosen| < |suggestions| && |chosen| < 4
      invariant chosen <= offered
      invariant |chosen| <= 4
      invariant current in suggestions ==> current in chosen
      decreases 4 - |chosen|
    {
      assert exists w :: w in offered && w !in chosen by {
        if offered <= chosen {
          SubsetCard(offered, chosen);
          assert false;
        }
      }
      var w :| w in suggestions && w !in chosen;
      chosen := chosen + {w};
    }
    SubsetCard(chosen, offered);
  }

  /** The text a suggestion button writes: the first `wordNum` words, the word, a space, lower-cased. */
  function TapText(words: seq<string>, wordNum: nat, word: string): (t: string)
    ensures t != [] && t[|t| - 1] == ' '
  {
    var before := words[..Min(wordNum, |words|)];
    Lower(Join(before) + (if wordNum > 0 then " " else "") + word + " ")
  }

  /**
   * Tapping a suggestion completes the current word: the text now splits
   * into the earlier words and the tapped one, and the screen moves on to
   * the next word with nothing typed.
   */
  lemma TapCompletesWord(words: seq<string>, wordNum: nat, word: string)
    requires wordNum <= |words|
    requires forall w :: w in words ==> IsWord(w)
    requires IsWord(word)
    ensures Split(TapText(words, wordNum, word)) == LowerAll(words[..wordNum] + [word])
    ensures WordPosition(Lower(TapText(words, wordNum, word))) == Some(Position(wordNum + 1, ""))
  {
    var k := wordNum;
    assert Min(wordNum, |words|) == k;
    var ws := words[..k] + [word];
    var joined := Join(ws);
    var t := TapText(words, wordNum, word);
    assert t == Lower(joined + " ") by {
      JoinSnoc(words[..k], word);
    }
    assert Split(t) == LowerAll(ws) by {
      assert forall w :: w in ws ==> IsWord(w);
      LowerTrailingSpace(joined);
      SplitTrailingSpace(Lower(joined));
      SplitLower(joined);
      SplitJoin(ws);
    }
    assert Lower(t) == t by {
      LowerIdempotent(joined + " ");
    }
    assert t[|t| - 1] == ' ' by {
      LowerTrailingSpace(joined);
    }
  }

  /** Tapping the next word of a lower-case seed extends the typed seed by that word. */
  lemma TapAppendsWord(ws: seq<string>, w: string)
    requires forall x :: x in ws ==> IsLowerWord(x)
    requires IsLowerWord(w)
    ensures var t := if ws == [] then "" else Join(ws) + " ";
      var words := Split(Lower(t));
      TapText(words, |words|, w) == Join(ws + [w]) + " "
  {
    var t := if ws == [] then "" else Join(ws) + " ";
    var words := Split(Lower(t));
    assert words == ws by {
      if ws != [] {
        LowerJoinOfLowerWords(ws);
        LowerTrailingSpace(Join(ws));
        SplitTrailingSpace(Join(ws));
        assert forall x :: x in ws ==> IsWord(x);
        SplitJoin(ws);
      }
    }
    var j := Join(ws + [w]);
    assert TapText(ws, |ws|, w) == Lower(j + " ") by {
      JoinSnoc(ws, w);
      assert ws[..Min(|ws|, |ws|)] == ws;
    }
    assert Lower(j + " ") == j + " " by {
      assert forall x :: x in ws + [w] ==> IsLowerWord(x);
      LowerJoinOfLowerWords(ws + [w]);
      LowerTrailingSpace(j);
    }
  }

  lemma LowerJoinOfLowerWords(ws: seq<string>)
    requires forall x :: x in ws ==> IsLowerWord(x)
    ensures Lower(Join(ws)) == Join(ws)
  {
    LowerJoin(ws);
    LowerAllOfLowerWords(ws);
  }

  lemma LowerAllOfLowerWords(ws: seq<string>)
    requires forall x :: x in ws ==> IsLowerWord(x)
    ensures LowerAll(ws) == ws
  {
    forall i | 0 <= i < |ws|
      ensures LowerAll(ws)[i] == ws[i]
    {
      assert ws[i] in ws;
    }
  }

  /** `onNext`'s comparison: the typed text, stripped, lower-cased and split, is the seed's word list. */
  predicate SeedMatches(seedList: seq<string>, text: string)
  {
    seedList == Split(Lower(Strip(text)))
  }

  /** Surrounding whitespace and letter case play no part in the comparison. */
  lemma SeedMatchesWords(seedList: seq<string>, text: string)
    ensures SeedMatches(seedList, text) <==> seedList == LowerAll(Split(text))
  {
    SplitLower(Strip(text));
    SplitStrip(text);
  }

  /** Typing back every word of a lower-case seed, separated by spaces, is accepted. */
  lemma RetypedSeedMatches(seedList: seq<string>)
    requires forall x :: x in seedList ==> IsLowerWord(x)
    ensures SeedMatches(seedList, Join(seedList) + " ")
  {
    SeedMatchesWords(seedList, Join(seedList) + " ");
    SplitTrailingSpace(Join(seedList));
    assert forall x :: x in seedList ==> IsWord(x);
    SplitJoin(seedList);
    LowerAllOfLowerWords(seedList);
  }

  /** What `onNext` does. */
  datatype NextAction =
    | Dismiss
    | ShowMismatch
    | MissingParams
    | CreateWallet(name: ParamValue, password: ParamValue, seed: ParamValue)

  /** `onNext`: dismiss when done, else compare the seed, else read the parameters and create the wallet. */
  function NextStep(isDone: bool, seedList: seq<string>, text: string, params: Params): (a: NextAction)
    ensures a.CreateWallet? <==> !isDone && SeedMatches(seedList, text) && "WalletName" in params && "WalletPass" in params && "seed" in params
    ensures a.CreateWallet? ==> a == CreateWallet(params["WalletName"], params["WalletPass"], params["seed"])
    ensures a == Dismiss <==> isDone
    ensures a == ShowMismatch <==> !isDone && !SeedMatches(seedList, text)
  {
    if isDone then Dismiss
    else if !SeedMatches(seedList, text) then ShowMismatch
    else if "WalletName" in params && "WalletPass" in params && "seed" in params then
      CreateWallet(params["WalletName"], params["WalletPass"], params["seed"])
    else MissingParams
  }

  /**
   * The wizard's whole path: a form that passes and a ready seed leave every
   * parameter `onNext` needs in place, so a matching retype creates the
   * wallet with the form's name, the confirmed password and the seed.
   */
  lemma WizardCreatesWallet(d: Params, name: string, nameExists: bool, pw1: string, pw2: string,
                            seed: string, text: string)
    requires FormCheck(name, nameExists, pw1, pw2) == None
    requires SeedReady(Some(seed))
    requires SeedMatches(Split(seed), text)
    ensures var d1 := AfterSetParam(AfterSetParam(d, "WalletName", Str(name)), "WalletPass", Str(pw2));
      var d2 := AfterSetParam(AfterSetParam(d1, "seed", Str(seed)), "seed_list", StrList(Split(seed)));
      NextStep(false, Split(seed), text, d2) == CreateWallet(Str(name), Str(pw2), Str(seed))
  {
  }

  /** The retype screen's state. */
  class SeedRetype {
    var seedList: seq<string>
    /** The text view's contents. */
    var text: string
    var keys: set<Key>
    /** The words on the suggestion buttons. */
    var sugButs: set<string>
    /** The `words` and `wordNum` the current buttons captured when they were made. */
    var tapWords: seq<string>
    var tapWordNum: nat
    var errMsgHidden: bool
    var infoHidden: bool
    var isDone: bool

    constructor (seedList: seq<string>)
      ensures this.seedList == seedList && text == "" && sugButs == {} && !isDone
    {
      this.seedList := seedList;
      text := "";
      keys := {};
      sugButs := {};
      tapWords, tapWordNum := [], 0;
      errMsgHidden, infoHidden := true, false;
      isDone := false;
    }

    /** The screen as `doSuggestions` leaves it for the current text. */
    ghost predicate ShowsSuggestions(suggest: string -> seq<string>)
      reads this
    {
      var t := Lower(text);
      WordPosition(t).Some? &&
      var pos := WordPosition(t).value;
      var sugs := suggest(pos.prefix);
      && keys == EnabledKeys(ValidChars(sugs, pos.prefix))
      && (|sugs| < 10 ==> ChoiceOk(sugButs, sugs, CurrentSeedWord(seedList, pos.wordNum)))
      && (|sugs| >= 10 ==> sugButs == {})
      && tapWords == Split(t) && tapWordNum == pos.wordNum
      && errMsgHidden && !infoHidden
    }

    /**
     * `doSuggestions`: recomputes the enabled keys and the suggestion
     * buttons; the IndexError case changes nothing.
     */
    method DoSuggestions(suggest: string -> seq<string>)
      requires forall p :: Distinct(suggest(p))
      modifies this`keys, this`sugButs, this`tapWords, this`tapWordNum, this`errMsgHidden, this`infoHidden
      ensures WordPosition(Lower(text)).Some? ==> ShowsSuggestions(suggest)
      ensures WordPosition(Lower(text)).None? ==>
        && keys == old(keys) && sugButs == old(sugButs) && tapWords == old(tapWords)
        && tapWordNum == old(tapWordNum) && errMsgHidden == old(errMsgHidden) && infoHidden == old(infoHidden)
    {
      var t := Lower(text);
      var pos := WordPosition(t);
      if pos.None? {
        return;
      }
      var words := Split(t);
      var wordNum, prefix := pos.value.wordNum, pos.value.prefix;
      var suggestions := suggest(prefix);
      var valid := CollectValidChars(suggestions, prefix);
      keys := EnabledKeys(valid);
      var current := CurrentSeedWord(seedList, wordNum);
      if |suggestions| < 10 {
        sugButs := ChooseSuggestions(suggestions, current);
      } else {
        sugButs := {};
      }
      tapWords, tapWordNum := words, wordNum;
      errMsgHidden, infoHidden := true, false;
      assert Lower(text) == t && WordPosition(t) == pos;
      assert keys == EnabledKeys(ValidChars(suggest(prefix), prefix));
      assert tapWords == Split(t) && tapWordNum == pos.value.wordNum;
    }

    /** `AddButWord`: a suggestion button writes its word into the text and refreshes the screen. */
    method TapSuggestion(word: string, suggest: string -> seq<string>)
      requires word in sugButs
      requires forall p :: Distinct(suggest(p))
      modifies this
      ensures text == TapText(old(tapWords), old(tapWordNum), word)
      ensures seedList == old(seedList) && isDone == old(isDone)
      ensures ShowsSuggestions(suggest)
    {
      text := TapText(tapWords, tapWordNum, word);
      LowerIdempotent(text);
      DoSuggestions(suggest);
    }

    /** `onNext`: a mismatch shows the error view; the other outcomes leave the screen as it is. */
    method OnNext(params: Params) returns (a: NextAction)
      modifies this`errMsgHidden, this`infoHidden
      ensures a == NextStep(isDone, seedList, text, params)
      ensures a == ShowMismatch ==> !errMsgHidden && infoHidden
      ensures a != ShowMismatch ==> errMsgHidden == old(errMsgHidden) && infoHidden == old(infoHidden)
    {
      a := NextStep(isDone, seedList, text, params);
      if a == ShowMismatch {
        errMsgHidden, infoHidden := false, true;
      }
    }

    /** The creation callback: later taps of Next only dismiss the screen. */
    method OnWalletCreated()
      modifies this
      ensures isDone
      ensures seedList == old(seedList) && text == old(text)
    {
      isDone := true;
    }
  }

  // ---------------------------------------------------------------------
  // Onboarding pages (OnBoardingWizard)
  // ---------------------------------------------------------------------

  /** The page before `vc`: the one preceding the last occurrence of `vc` past the first slot. */
  function Before<T(==)>(vcs: seq<T>, vc: T): Option<T>
  {
    if |vcs| <= 1 then None
    else if vcs[|vcs| - 1] == vc then Some(vcs[|vcs| - 2])
    else Before(vcs[..|vcs| - 1], vc)
  }

  /** The page after `vc`: the one following the last occurrence of `vc` before the final slot. */
  function After<T(==)>(vcs: seq<T>, vc: T): Option<T>
  {
    if |vcs| <= 1 then None
    else if vcs[|vcs| - 2] == vc then Some(vcs[|vcs| - 1])
    else After(vcs[..|vcs| - 1], vc)
  }

  /** `viewControllerBeforeViewController`: scans every page, keeping the last match. */
  method PageBefore<T(==)>(vcs: seq<T>, vc: T) returns (b4: Option<T>)
    ensures b4 == Before(vcs, vc)
  {
    b4 := None;
    for i := 0 to |vcs|
      invariant b4 == Before(vcs[..i], vc)
    {
      assert vcs[..i + 1][..i] == vcs[..i];
      if vcs[i] == vc && i > 0 {
        b4 := Some(vcs[i - 1]);
      }
    }
    assert vcs[..|vcs|] == vcs;
  }

  /** `viewControllerAfterViewController`: scans every page, keeping the last match. */
  method PageAfter<T(==)>(vcs: seq<T>, vc: T) returns (aft: Option<T>)
    ensures aft == After(vcs, vc)
  {
    aft := None;
    for i := 0 to |vcs|
      invariant aft == After(vcs[..Min(i + 1, |vcs|)], vc)
    {
      if i + 1 < |vcs| {
        assert vcs[..i + 2][..i + 1] == vcs[..i + 1];
      }
      if vc == vcs[i] && i + 1 < |vcs| {
        aft := Some(vcs[i + 1]);
      }
    }
    assert vcs[..|vcs|] == vcs;
  }

  /** Before finds a page exactly when `vc` occurs past the first slot. */
  lemma {:induction false} BeforeSome<T>(vcs: seq<T>, vc: T)
    ensures Before(vcs, vc).Some? <==> exists i :: 0 < i < |vcs| && vcs[i] == vc
  {
    if |vcs| > 1 && vcs[|vcs| - 1] != vc {
      var init := vcs[..|vcs| - 1];
      BeforeSome(init, vc);
      assert forall i :: 0 <= i < |init| ==> init[i] == vcs[i];
    }
  }

  /** For distinct pages, the page before page i is page i-1, and the first page has none. */
  lemma {:induction false} BeforeAt<T>(vcs: seq<T>, i: nat)
    requires Distinct(vcs) && i < |vcs|
    ensures Before(vcs, vcs[i]) == if i == 0 then None else Some(vcs[i - 1])
  {
    if |vcs| > 1 && i != |vcs| - 1 {
      var init := vcs[..|vcs| - 1];
      assert Distinct(init);
      BeforeAt(init, i);
    }
  }

  /** For distinct pages, the page after page i is page i+1, and the last page has none. */
  lemma {:induction false} AfterAt<T>(vcs: seq<T>, i: nat)
    requires Distinct(vcs) && i < |vcs|
    ensures After(vcs, vcs[i]) == if i + 1 < |vcs| then Some(vcs[i + 1]) else None
  {
    if |vcs| > 1 && i != |vcs| - 2 {
      var init := vcs[..|vcs| - 1];
      if i == |vcs| - 1 {
        assert forall j :: 0 <= j < |init| ==> init[j] != vcs[i];
        AfterAbsent(init, vcs[i]);
      } else {
        assert Distinct(init);
        AfterAt(init, i);
      }
    }
  }

  lemma {:induction false} AfterAbsent<T>(vcs: seq<T>, vc: T)
    requires forall j :: 0 <= j < |vcs| ==> vcs[j] != vc
    ensures After(vcs, vc) == None
  {
    if |vcs| > 1 {
      AfterAbsent(vcs[..|vcs| - 1], vc);
    }
  }

  /** Paging forward and then back returns to the same page. */
  lemma BeforeUndoesAfter<T>(vcs: seq<T>, i: nat)
    requires Distinct(vcs) && i + 1 < |vcs|
    ensures After(vcs, vcs[i]) == Some(vcs[i + 1])
    ensures Before(vcs, vcs[i + 1]) == Some(vcs[i])
  {
    AfterAt(vcs, i);
    BeforeAt(vcs, i + 1);
  }

  /** `presentationCountForPageViewController_`: the number of pages, 0 when there is no list. */
  function PresentationCount<T>(vcs: Option<seq<T>>): (n: nat)
    ensures vcs.Some? ==> n == |vcs.value|
    ensures vcs.None? ==> n == 0
  {
    if vcs.Some? && vcs.value != [] then |vcs.value| else 0
  }
}
