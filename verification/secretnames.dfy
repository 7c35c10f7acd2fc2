/** Which field names hold a secret: what a class may not declare, and what the journal masks all the same. */
module SecretNames {
  import opened Strings

  const SECRET_FRAGMENTS: seq<string> :=
    ["token", "password", "passphrase", "passcode", "secret", "credential", "apikey", "otp", "recoverycode", "jwt"]

  /** Lower case, underscores removed. */
  function Normalized(name: string): string {
    if name == "" then ""
    else (if name[0] == '_' then "" else [LowerChar(name[0])]) + Normalized(name[1..])
  }

  predicate ContainsAt(s: string, part: string, i: nat) { i + |part| <= |s| && s[i..i + |part|] == part }

  predicate Contains(s: string, part: string) { exists i :: 0 <= i <= |s| && ContainsAt(s, part, i) }

  predicate EndsWith(s: string, end: string) { |end| <= |s| && s[|s| - |end|..] == end }

  predicate IsSecretName(name: string) {
    && name != "id" && !EndsWith(name, "_id")
    && exists i :: 0 <= i < |SECRET_FRAGMENTS| && Contains(Normalized(name), SECRET_FRAGMENTS[i])
  }

  // ── What that means of a name ─────────────────────────────────────────────────────────────────

  /** The word can be read off the name at these places: its letters in order, in either case, with nothing
      but underscores between them. */
  ghost predicate ReadsAt(name: string, word: string, places: seq<nat>) {
    && |places| == |word|
    && (forall m :: 0 <= m < |places| ==> places[m] < |name| && SameLetter(name[places[m]], word[m]))
    && (forall m :: 0 < m < |places| ==> places[m - 1] < places[m] && OnlyUnderscores(name, places[m - 1], places[m]))
  }

  predicate OnlyUnderscores(name: string, from: nat, to: nat) {
    forall k :: from < k < to && k < |name| ==> name[k] == '_'
  }

  ghost predicate Reads(name: string, word: string) { exists places :: ReadsAt(name, word, places) }

  ghost predicate Lettered(word: string) { word != "" && forall m :: 0 <= m < |word| ==> 'a' <= word[m] <= 'z' }

  predicate StoodAt(name: string, k: nat, c: char) { k < |name| && name[k] != '_' && c == LowerChar(name[k]) }

  /** Where the characters of a normalized name stood. */
  ghost predicate Places(name: string, normalized: string, at: seq<nat>) {
    && |at| == |normalized|
    && (forall i :: 0 <= i < |at| ==> StoodAt(name, at[i], normalized[i]))
    && (forall i, j :: 0 <= i < j < |at| ==> at[i] < at[j])
    && (forall k :: 0 <= k < |name| && name[k] != '_' ==> k in at)
  }

  function Shifted(at: seq<nat>): seq<nat> { seq(|at|, i requires 0 <= i < |at| => at[i] + 1) }

  lemma PlacesShift(name: string, normalized: string, at: seq<nat>)
    requires name != "" && name[0] == '_' && Places(name[1..], normalized, at)
    ensures Places(name, normalized, Shifted(at))
  {
    forall k | 0 <= k < |name| && name[k] != '_' ensures k in Shifted(at) {
      assert name[1..][k - 1] == name[k];
      var i :| 0 <= i < |at| && at[i] == k - 1;
      assert Shifted(at)[i] == k;
    }
  }

  lemma ShiftedRises(at: seq<nat>)
    requires forall i, j :: 0 <= i < j < |at| ==> at[i] < at[j]
    ensures forall i, j :: 0 <= i < j < |at| + 1 ==> ([0] + Shifted(at))[i] < ([0] + Shifted(at))[j]
  {
  }

  lemma ConsStands(name: string, normalized: string, at: seq<nat>)
    requires name != "" && name[0] != '_' && |at| == |normalized|
    requires forall i :: 0 <= i < |at| ==> StoodAt(name[1..], at[i], normalized[i])
    ensures forall i :: 0 <= i < |at| + 1 ==>
      StoodAt(name, ([0] + Shifted(at))[i], ([LowerChar(name[0])] + normalized)[i])
  {
    forall i: nat | i < |at| ensures StoodAt(name, at[i] + 1, normalized[i]) {
      assert StoodAt(name[1..], at[i], normalized[i]);
    }
  }

  lemma ConsMembers(name: string, at: seq<nat>, k: nat)
    requires k + 1 < |name| && (name[1..][k] != '_' ==> k in at)
    ensures name[k + 1] != '_' ==> k + 1 in [0] + Shifted(at)
  {
    if name[1..][k] != '_' {
      var i :| 0 <= i < |at| && at[i] == k;
      assert ([0] + Shifted(at))[i + 1] == k + 1;
    }
  }

  lemma PlacesCons(name: string, normalized: string, at: seq<nat>)
    requires name != "" && name[0] != '_' && Places(name[1..], normalized, at)
    ensures Places(name, [LowerChar(name[0])] + normalized, [0] + Shifted(at))
  {
    ConsStands(name, normalized, at);
    ShiftedRises(at);
    forall k | 0 <= k < |name| && name[k] != '_' ensures k in [0] + Shifted(at) {
      if k > 0 {
        ConsMembers(name, at, k - 1);
      } else {
        assert ([0] + Shifted(at))[0] == 0;
      }
    }
  }

  lemma {:induction false} PlacesOf(name: string) returns (at: seq<nat>)
    ensures Places(name, Normalized(name), at)
  {
    if name == "" {
      at := [];
    } else {
      var rest := PlacesOf(name[1..]);
      if name[0] == '_' {
        PlacesShift(name, Normalized(name[1..]), rest);
        assert "" + Normalized(name[1..]) == Normalized(name[1..]);
        at := Shifted(rest);
      } else {
        PlacesCons(name, Normalized(name[1..]), rest);
        at := [0] + Shifted(rest);
      }
    }
  }

  lemma Ordered(at: seq<nat>, i: nat, j: nat)
    requires i < |at| && j < |at| && forall m, n :: 0 <= m < n < |at| ==> at[m] < at[n]
    ensures at[i] < at[j] ==> i < j
  {
  }

  lemma NoneBetween(name: string, normalized: string, at: seq<nat>, i: nat)
    requires Places(name, normalized, at) && i + 1 < |at|
    ensures forall j :: 0 <= j < |at| ==> at[j] <= at[i] || at[i + 1] <= at[j]
    ensures OnlyUnderscores(name, at[i], at[i + 1])
  {
  }

  /** A fragment in the normalized name can be read off the name itself. */
  lemma ContainedReads(name: string, word: string, i: nat)
    requires Lettered(word) && ContainsAt(Normalized(name), word, i)
    ensures Reads(name, word)
  {
    var normalized := Normalized(name);
    var at := PlacesOf(name);
    var places := at[i..i + |word|];
    forall m | 0 <= m < |places| ensures places[m] < |name| && SameLetter(name[places[m]], word[m]) {
      assert normalized[i..i + |word|][m] == normalized[i + m];
    }
    forall m | 0 < m < |places| ensures places[m - 1] < places[m] && OnlyUnderscores(name, places[m - 1], places[m]) {
      NoneBetween(name, normalized, at, i + m - 1);
    }
    assert ReadsAt(name, word, places);
  }

  /** Places read one after another are one after another among the letters. */
  lemma {:induction false} ReadInOrder(
    name: string, normalized: string, word: string, places: seq<nat>, at: seq<nat>, i: nat, m: nat)
    requires Lettered(word) && ReadsAt(name, word, places) && Places(name, normalized, at)
    requires i < |at| && at[i] == places[0] && m < |places|
    ensures i + m < |at| && at[i + m] == places[m]
  {
    if m > 0 {
      ReadInOrder(name, normalized, word, places, at, i, m - 1);
      assert SameLetter(name[places[m]], word[m]) && places[m] in at;
      var j :| 0 <= j < |at| && at[j] == places[m];
      Ordered(at, i + m - 1, j);
      NoneBetween(name, normalized, at, i + m - 1);
      assert OnlyUnderscores(name, places[m - 1], places[m]) && name[at[i + m]] != '_';
    }
  }

  lemma ReadContains(name: string, word: string)
    requires Lettered(word) && Reads(name, word)
    ensures Contains(Normalized(name), word)
  {
    var places :| ReadsAt(name, word, places);
    var normalized := Normalized(name);
    var at := PlacesOf(name);
    assert SameLetter(name[places[0]], word[0]) && places[0] in at;
    var i :| 0 <= i < |at| && at[i] == places[0];
    ReadInOrder(name, normalized, word, places, at, i, |word| - 1);
    forall m | 0 <= m < |word| ensures normalized[i..i + |word|][m] == word[m] {
      ReadInOrder(name, normalized, word, places, at, i, m);
      assert SameLetter(name[places[m]], word[m]);
    }
    assert ContainsAt(normalized, word, i);
  }

  lemma FragmentIsLettered(i: nat)
    requires i < |SECRET_FRAGMENTS|
    ensures Lettered(SECRET_FRAGMENTS[i]) && |SECRET_FRAGMENTS[i]| >= 3
  {
  }

  ghost predicate ReadsFragment(name: string) { exists word :: word in SECRET_FRAGMENTS && Reads(name, word) }

  predicate EndsInId(name: string) { |name| >= 3 && name[|name| - 3..] == "_id" }

  lemma ContainsIffReads(name: string, word: string)
    requires Lettered(word) && |word| >= 3
    ensures Contains(Normalized(name), word) <==> Reads(name, word)
    ensures Reads(name, word) ==> |name| >= 3
  {
    if k :| 0 <= k <= |Normalized(name)| && ContainsAt(Normalized(name), word, k) {
      ContainedReads(name, word, k);
    }
    if Reads(name, word) {
      ReadContains(name, word);
      LongEnough(name, word);
    }
  }

  /** A name is secret exactly when a fragment can be read off it and it does not end in `_id`. */
  lemma SecretIffReadable(name: string)
    ensures IsSecretName(name) <==> ReadsFragment(name) && !EndsInId(name)
  {
    forall i: nat | i < |SECRET_FRAGMENTS|
      ensures Contains(Normalized(name), SECRET_FRAGMENTS[i]) <==> Reads(name, SECRET_FRAGMENTS[i])
      ensures Reads(name, SECRET_FRAGMENTS[i]) ==> |name| >= 3
    {
      FragmentIsLettered(i);
      ContainsIffReads(name, SECRET_FRAGMENTS[i]);
    }
    assert forall word :: word in SECRET_FRAGMENTS <==>
      exists i :: 0 <= i < |SECRET_FRAGMENTS| && SECRET_FRAGMENTS[i] == word;
    assert EndsWith(name, "_id") <==> EndsInId(name);
  }

  lemma LongEnough(name: string, word: string)
    requires Reads(name, word) && |word| >= 3
    ensures |name| >= 3
  {
    var places :| ReadsAt(name, word, places);
    assert places[0] < places[1] < places[2];
  }

  /** Whatever surrounds it, a fragment in either case and with underscores strewn in makes a name secret,
      unless the name ends in `_id`. */
  lemma SpelledIsSecret(before: string, spelled: string, after: string, word: string)
    requires word in SECRET_FRAGMENTS && Reads(spelled, word)
    ensures var name := before + spelled + after;
            ReadsFragment(name) && (IsSecretName(name) <==> !EndsInId(name))
  {
    var name := before + spelled + after;
    var places :| ReadsAt(spelled, word, places);
    var moved := seq(|places|, m requires 0 <= m < |places| => places[m] + |before|);
    forall m | 0 <= m < |moved| ensures moved[m] < |name| && SameLetter(name[moved[m]], word[m]) {
      assert name[moved[m]] == spelled[places[m]];
    }
    forall m | 0 < m < |moved| ensures moved[m - 1] < moved[m] && OnlyUnderscores(name, moved[m - 1], moved[m]) {
      assert OnlyUnderscores(spelled, places[m - 1], places[m]);
      forall k | moved[m - 1] < k < moved[m] && k < |name| ensures name[k] == '_' {
        assert name[k] == spelled[k - |before|];
      }
    }
    assert ReadsAt(name, word, moved);
    assert ReadsAt(name, word, moved) && Reads(name, word);
    SecretIffReadable(name);
  }

  /** As it stands in the list a fragment is read off itself. */
  lemma ReadsItself(word: string)
    ensures Reads(word, word)
  {
    var places := seq(|word|, m requires 0 <= m < |word| => m);
    assert ReadsAt(word, word, places);
  }

  /** Every fragment has a `t`, a `p`, a `c` or a `j`: a name without any of them is plain. */
  lemma PlainWithoutLetters(name: string)
    requires forall k :: 0 <= k < |name| ==> name[k] !in "tpcjTPCJ"
    ensures !IsSecretName(name)
  {
    SecretIffReadable(name);
    forall i: nat | i < |SECRET_FRAGMENTS| ensures !Reads(name, SECRET_FRAGMENTS[i]) {
      var m := Telling(i);
      assert forall k :: 0 <= k < |name| ==> !SameLetter(name[k], SECRET_FRAGMENTS[i][m]);
      forall places ensures !ReadsAt(name, SECRET_FRAGMENTS[i], places) {
        assert |places| == |SECRET_FRAGMENTS[i]| && places[m] < |name| ==>
          !SameLetter(name[places[m]], SECRET_FRAGMENTS[i][m]);
      }
    }
  }

  lemma Telling(i: nat) returns (m: nat)
    requires i < |SECRET_FRAGMENTS|
    ensures m < |SECRET_FRAGMENTS[i]| && SECRET_FRAGMENTS[i][m] in "tpcj"
  {
    m := if i == 4 then 2 else if i == 6 then 1 else if i == 7 then 1 else if i == 8 then 2 else 0;
  }
}
