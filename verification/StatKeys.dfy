/** Keys of the statistics table: built from a user, words and a statistic's name, and taken apart again.
    Strings are byte sequences. */
module StatKeys {

  const VERSION := "version"
  const PHASE := "phase"
  const SUBSCRIPTIONS := "subs"
  const SIGNING_TIMES := "sgns"
  const TRANSACTIONS := "txns"
  const STARS := "strs"
  const COMMENTS := "cmts"

  /** Every name that a builder appends. */
  const NAMES: set<string> := {VERSION, PHASE, SUBSCRIPTIONS, SIGNING_TIMES, TRANSACTIONS, STARS, COMMENTS}

  // ----- builders -----

  /** GetGeneralStatKey */
  function Join(words: seq<string>): string {
    if words == [] then ""
    else if |words| == 1 then words[0]
    else words[0] + "/" + Join(words[1..])
  }

  /** GetVersionKey, GetPhaseKey, GetSubscriptionsStatKey and the like, by the name they append. */
  function StatKey(words: seq<string>, name: string): string {
    Join(words) + "#" + name
  }

  /** GetUserItemStatKey */
  function UserItemStatKey(user: string, itemStatKey: string): string {
    user + "$" + itemStatKey
  }

  /** GetUserSubscriptionsStatKey and the like: no words. */
  function UserStatKey(user: string, name: string): string {
    user + "$#" + name
  }

  /** The keys written out, as the builders of each statistic make them. */
  lemma {:induction false} KeysWrittenOut(words: seq<string>, user: string, item: string)
    ensures Join([]) == "" && Join([item]) == item
    ensures words != [] ==> Join([item] + words) == item + "/" + Join(words)
    ensures StatKey(words, VERSION) == Join(words) + "#version" && StatKey(words, PHASE) == Join(words) + "#phase"
    ensures StatKey(words, SUBSCRIPTIONS) == Join(words) + "#subs"
    ensures StatKey(words, SIGNING_TIMES) == Join(words) + "#sgns"
    ensures StatKey(words, TRANSACTIONS) == Join(words) + "#txns"
    ensures StatKey(words, STARS) == Join(words) + "#strs" && StatKey(words, COMMENTS) == Join(words) + "#cmts"
    ensures UserItemStatKey(user, item) == user + "$" + item
    ensures UserStatKey(user, SUBSCRIPTIONS) == user + "$#subs" && UserStatKey(user, TRANSACTIONS) == user + "$#txns"
    ensures UserStatKey(user, STARS) == user + "$#strs" && UserStatKey(user, COMMENTS) == user + "$#cmts"
  {
    if words != [] {
      JoinCons(item, words);
    }
    Suffix(Join(words), "#", VERSION, "#version");
    Suffix(Join(words), "#", PHASE, "#phase");
    Suffix(Join(words), "#", SUBSCRIPTIONS, "#subs");
    Suffix(Join(words), "#", SIGNING_TIMES, "#sgns");
    Suffix(Join(words), "#", TRANSACTIONS, "#txns");
    Suffix(Join(words), "#", STARS, "#strs");
    Suffix(Join(words), "#", COMMENTS, "#cmts");
    Suffix(user, "$#", SUBSCRIPTIONS, "$#subs");
    Suffix(user, "$#", TRANSACTIONS, "$#txns");
    Suffix(user, "$#", STARS, "$#strs");
    Suffix(user, "$#", COMMENTS, "$#cmts");
  }

  lemma {:induction false} Suffix(front: string, mark: string, name: string, tail: string)
    requires mark + name == tail
    ensures front + mark + name == front + tail
  {
  }

  // ----- parser -----

  function IndexFrom(s: string, c: char, from: nat): (i: int)
    requires from <= |s|
    ensures i == -1 || (from <= i < |s| && s[i] == c)
    ensures forall k :: from <= k < (if i < 0 then |s| else i) ==> s[k] != c
    decreases |s| - from
  {
    if from == |s| then -1 else if s[from] == c then from else IndexFrom(s, c, from + 1)
  }

  function IndexByte(s: string, c: char): (i: int)
    ensures i == -1 || (0 <= i < |s| && s[i] == c)
    ensures forall k :: 0 <= k < (if i < 0 then |s| else i) ==> s[k] != c
  {
    IndexFrom(s, c, 0)
  }

  function LastIndexBelow(s: string, c: char, end: nat): (i: int)
    requires end <= |s|
    ensures i == -1 || (0 <= i < end && s[i] == c)
    ensures forall k :: i < k < end ==> s[k] != c
  {
    if end == 0 then -1 else if s[end - 1] == c then end - 1 else LastIndexBelow(s, c, end - 1)
  }

  function LastIndexByte(s: string, c: char): (i: int)
    ensures i == -1 || (0 <= i < |s| && s[i] == c)
    ensures forall k :: i < k < |s| ==> s[k] != c
  {
    LastIndexBelow(s, c, |s|)
  }

  /** strings.Split(s, "/") */
  function Split(s: string): seq<string>
    decreases |s|
  {
    var i := IndexByte(s, '/');
    if i < 0 then [s] else [s[..i]] + Split(s[i + 1..])
  }

  datatype Parsed = Parsed(date: string, user: string, itemKeys: seq<string>, statName: string)

  function NilIfBlank(items: seq<string>): seq<string> {
    if items == [""] then [] else items
  }

  function ParseStatKey(statKey: string): Parsed {
    var index3 := LastIndexByte(statKey, '#');
    if index3 < 0 then
      var index := LastIndexByte(statKey, '>');
      if index >= 0 then Parsed(statKey[..index], "", [], statKey[index + 1..]) else Parsed("", "", [], "")
    else
      var statName := statKey[index3 + 1..];
      var index1 := IndexByte(statKey, '$');
      if 0 <= index1 < index3
      then Parsed("", statKey[..index1], NilIfBlank(Split(statKey[index1 + 1..index3])), statName)
      else Parsed("", "", NilIfBlank(Split(statKey[..index3])), statName)
  }

  // ----- split against join -----

  predicate NoSlash(words: seq<string>) {
    forall i :: 0 <= i < |words| ==> '/' !in words[i]
  }

  lemma {:induction false} FirstOf(s: string, c: char) returns (i: nat)
    requires c in s
    ensures i < |s| && s[i] == c && forall k :: 0 <= k < i ==> s[k] != c
  {
    i := IndexByte(s, c);
  }

  lemma {:induction false} SplitAt(s: string, i: nat)
    requires i < |s| && s[i] == '/' && forall k :: 0 <= k < i ==> s[k] != '/'
    ensures Split(s) == [s[..i]] + Split(s[i + 1..])
  {
    assert IndexByte(s, '/') == i;
  }

  lemma {:induction false} SplitPieces(s: string)
    ensures |Split(s)| > 0 && NoSlash(Split(s))
    decreases |s|
  {
    if '/' in s {
      var i := FirstOf(s, '/');
      SplitAt(s, i);
      SplitPieces(s[i + 1..]);
    }
  }

  lemma {:induction false} JoinCons(word: string, words: seq<string>)
    requires words != []
    ensures Join([word] + words) == word + "/" + Join(words)
  {
    assert ([word] + words)[1..] == words;
  }

  lemma {:induction false} JoinOfSplit(s: string)
    ensures Join(Split(s)) == s
    decreases |s|
  {
    if '/' in s {
      var i := FirstOf(s, '/');
      SplitAt(s, i);
      JoinOfSplit(s[i + 1..]);
      SplitPieces(s[i + 1..]);
      JoinCons(s[..i], Split(s[i + 1..]));
      assert s == s[..i] + "/" + s[i + 1..];
    }
  }

  lemma {:induction false} AroundChar(front: string, c: char, back: string)
    ensures var s := front + [c] + back;
      |s| == |front| + 1 + |back| && s[|front|] == c && s[..|front|] == front && s[|front| + 1..] == back
    ensures forall k :: 0 <= k < |front| ==> (front + [c] + back)[k] == front[k]
    ensures forall k :: |front| < k <= |front| + |back| ==> (front + [c] + back)[k] == back[k - |front| - 1]
  {
  }

  lemma {:induction false} SplitCons(word: string, rest: string)
    requires '/' !in word
    ensures Split(word + "/" + rest) == [word] + Split(rest)
  {
    AroundChar(word, '/', rest);
    SplitAt(word + "/" + rest, |word|);
  }

  lemma {:induction false} SplitOfJoin(words: seq<string>)
    requires words != [] && NoSlash(words)
    ensures Split(Join(words)) == words
  {
    if |words| == 1 {
      assert Split(words[0]) == [words[0]];
    } else {
      SplitCons(words[0], Join(words[1..]));
      SplitOfJoin(words[1..]);
      assert words == [words[0]] + words[1..];
    }
  }

  /** Words come back from their joined form exactly when none holds a slash and they are not the
      single empty word. */
  lemma {:induction false} SplitJoinIff(words: seq<string>)
    ensures NilIfBlank(Split(Join(words))) == words <==> NoSlash(words) && words != [""]
  {
    SplitPieces(Join(words));
    if words != [] && NoSlash(words) {
      SplitOfJoin(words);
    }
  }

  // ----- round trips -----

  lemma {:induction false} ParseAt(key: string, i1: nat, i3: nat)
    requires i1 < i3 < |key|
    requires key[i1] == '$' && forall k :: 0 <= k < i1 ==> key[k] != '$'
    requires key[i3] == '#' && forall k :: i3 < k < |key| ==> key[k] != '#'
    ensures ParseStatKey(key)
         == Parsed("", key[..i1], NilIfBlank(Split(key[i1 + 1..i3])), key[i3 + 1..])
  {
    assert IndexByte(key, '$') == i1 && LastIndexByte(key, '#') == i3;
  }

  lemma {:induction false} ParseNoUser(key: string, i3: nat)
    requires i3 < |key| && forall k :: 0 <= k < i3 ==> key[k] != '$'
    requires key[i3] == '#' && forall k :: i3 < k < |key| ==> key[k] != '#'
    ensures ParseStatKey(key) == Parsed("", "", NilIfBlank(Split(key[..i3])), key[i3 + 1..])
  {
    assert LastIndexByte(key, '#') == i3;
  }

  lemma {:induction false} Regroup(a: string, b: string, c: string, d: string, e: string)
    ensures a + b + (c + d + e) == (a + b + c) + d + e
  {
  }

  /** A user with a '$' is cut short. */
  lemma {:induction false} DollarUser(user: string, joined: string, name: string)
    requires '#' !in name && '$' in user
    ensures |ParseStatKey(user + "$" + joined + "#" + name).user| < |user|
  {
    var front := user + "$" + joined;
    AroundChar(user, '$', joined);
    AroundChar(front, '#', name);
    var i := FirstOf(user, '$');
    ParseAt(front + "#" + name, i, |front|);
  }

  lemma {:induction false} PlainUser(user: string, joined: string, name: string)
    requires '#' !in name && '$' !in user
    ensures ParseStatKey(user + "$" + joined + "#" + name) == Parsed("", user, NilIfBlank(Split(joined)), name)
  {
    var front := user + "$" + joined;
    var key := front + "#" + name;
    AroundChar(user, '$', joined);
    AroundChar(front, '#', name);
    ParseAt(key, |user|, |front|);
    assert key[..|user|] == front[..|user|] && key[|user| + 1..|front|] == front[|user| + 1..];
  }

  /** For a statistic's name without '#': the parts come back exactly when the user holds no '$', no
      word holds '/' and the words are not the single empty word. */
  lemma {:induction false} UserKeyRoundTripIff(user: string, words: seq<string>, name: string)
    requires '#' !in name
    ensures ParseStatKey(UserItemStatKey(user, StatKey(words, name))) == Parsed("", user, words, name)
       <==> '$' !in user && NoSlash(words) && words != [""]
  {
    Regroup(user, "$", Join(words), "#", name);
    if '$' in user {
      DollarUser(user, Join(words), name);
    } else {
      PlainUser(user, Join(words), name);
      SplitJoinIff(words);
    }
  }

  /** Without a user the joined words must hold no '$' either. */
  lemma {:induction false} GeneralKeyRoundTripIff(words: seq<string>, name: string)
    requires '#' !in name
    ensures ParseStatKey(StatKey(words, name)) == Parsed("", "", words, name)
       <==> '$' !in Join(words) && NoSlash(words) && words != [""]
  {
    var joined, key := Join(words), StatKey(words, name);
    AroundChar(joined, '#', name);
    if '$' in joined {
      var i := FirstOf(joined, '$');
      ParseAt(key, i, |joined|);
      ShorterWords(words, key[i + 1..|joined|]);
    } else {
      ParseNoUser(key, |joined|);
      SplitJoinIff(words);
    }
  }

  /** The pieces of a shorter string are other words. */
  lemma {:induction false} ShorterWords(words: seq<string>, rest: string)
    requires |rest| < |Join(words)|
    ensures NilIfBlank(Split(rest)) != words
  {
    JoinOfSplit(rest);
    assert Join(NilIfBlank(Split(rest))) == rest;
  }

  lemma {:induction false} DollarInJoin(words: seq<string>)
    ensures '$' in Join(words) <==> exists i :: 0 <= i < |words| && '$' in words[i]
  {
    if |words| == 1 {
      assert '$' in words[0] <==> '$' in Join(words);
    } else if |words| > 1 {
      var rest := words[1..];
      DollarInJoin(rest);
      if exists i :: 0 <= i < |words| && '$' in words[i] {
        var i :| 0 <= i < |words| && '$' in words[i];
        if i > 0 { assert rest[i - 1] == words[i]; }
      }
      if '$' in Join(rest) {
        var i :| 0 <= i < |rest| && '$' in rest[i];
        assert words[i + 1] == rest[i];
      }
    }
  }

  predicate GoodWords(words: seq<string>) {
    NoSlash(words) && words != [""]
  }

  /** Keys without '#': a date before the last '>' and a name after it, or nothing at all. */
  lemma {:induction false} DateKeyParses(date: string, name: string)
    requires '#' !in date && '#' !in name && '>' !in name
    ensures ParseStatKey(date + ">" + name) == Parsed(date, "", [], name)
    ensures ParseStatKey(name) == Parsed("", "", [], "")
  {
    var key := date + ">" + name;
    AroundChar(date, '>', name);
    assert LastIndexByte(key, '#') == -1 && LastIndexByte(key, '>') == |date|;
    assert LastIndexByte(name, '#') == -1 && LastIndexByte(name, '>') == -1;
  }

  /** Different users, words or names give different keys. */
  lemma {:induction false} UserKeysDiffer(u1: string, w1: seq<string>, n1: string, u2: string, w2: seq<string>,
                                          n2: string)
    requires '#' !in n1 && '#' !in n2 && '$' !in u1 && '$' !in u2 && GoodWords(w1) && GoodWords(w2)
    requires UserItemStatKey(u1, StatKey(w1, n1)) == UserItemStatKey(u2, StatKey(w2, n2))
    ensures u1 == u2 && w1 == w2 && n1 == n2
  {
    UserKeyRoundTripIff(u1, w1, n1);
    UserKeyRoundTripIff(u2, w2, n2);
  }

  lemma {:induction false} GeneralKeysDiffer(w1: seq<string>, n1: string, w2: seq<string>, n2: string)
    requires '#' !in n1 && '#' !in n2 && GoodWords(w1) && GoodWords(w2)
    requires '$' !in Join(w1) && '$' !in Join(w2)
    requires StatKey(w1, n1) == StatKey(w2, n2)
    ensures w1 == w2 && n1 == n2
  {
    GeneralKeyRoundTripIff(w1, n1);
    GeneralKeyRoundTripIff(w2, n2);
  }

  /** A user's key is never a key without a user. */
  lemma {:induction false} UserKeyIsNotGeneral(user: string, w1: seq<string>, n1: string, w2: seq<string>, n2: string)
    requires '$' !in Join(w2) && '$' !in n2
    ensures UserItemStatKey(user, StatKey(w1, n1)) != StatKey(w2, n2)
  {
    var key := StatKey(w2, n2);
    assert '$' !in key;
    assert UserItemStatKey(user, StatKey(w1, n1))[|user|] == '$';
  }

  /** The keys without words are the general form with an empty word list. */
  lemma {:induction false} UserStatKeyIsUserItemKey(user: string, name: string)
    ensures UserStatKey(user, name) == UserItemStatKey(user, StatKey([], name))
  {
    assert "$#" == "$" + "#";
    assert user + "$#" + name == user + "$" + ("" + "#" + name);
  }

  lemma {:induction false} NamesArePlain(name: string)
    requires name in NAMES
    ensures '#' !in name && '$' !in name
  {
  }

  /** The round trips of the keys as they are built: of a user's item, of a user alone, of an item alone. */
  lemma {:induction false} BuiltKeysRoundTripIff(user: string, words: seq<string>, name: string)
    requires name in NAMES
    ensures ParseStatKey(UserItemStatKey(user, StatKey(words, name))) == Parsed("", user, words, name)
       <==> '$' !in user && NoSlash(words) && words != [""]
    ensures ParseStatKey(UserStatKey(user, name)) == Parsed("", user, [], name) <==> '$' !in user
    ensures ParseStatKey(StatKey(words, name)) == Parsed("", "", words, name)
       <==> (forall i :: 0 <= i < |words| ==> '$' !in words[i]) && NoSlash(words) && words != [""]
  {
    NamesArePlain(name);
    UserKeyRoundTripIff(user, words, name);
    UserKeyRoundTripIff(user, [], name);
    UserStatKeyIsUserItemKey(user, name);
    GeneralKeyRoundTripIff(words, name);
    DollarInJoin(words);
  }

  /** A user's item and an item alone never share a row. */
  lemma {:induction false} BuiltKeysDiffer(user: string, w1: seq<string>, n1: string, w2: seq<string>, n2: string)
    requires n1 in NAMES && n2 in NAMES && forall i :: 0 <= i < |w2| ==> '$' !in w2[i]
    ensures UserItemStatKey(user, StatKey(w1, n1)) != StatKey(w2, n2)
  {
    NamesArePlain(n2);
    DollarInJoin(w2);
    UserKeyIsNotGeneral(user, w1, n1, w2, n2);
  }

  /** The two keys of the upgrade protocol are different rows. */
  lemma {:induction false} VersionIsNotPhase(words: seq<string>)
    ensures StatKey(words, VERSION) != StatKey(words, PHASE)
  {
    assert |StatKey(words, VERSION)| == |StatKey(words, PHASE)| + 2;
  }
}
