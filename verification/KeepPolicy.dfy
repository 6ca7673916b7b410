/** A replacement that keeps the policies: they are renamed, and then the old name is rewritten inside the text of the
    uninstall policy, which lists applications that may not be uninstalled. */
module KeepPolicy {
  import opened PolicyModel
  import opened StoreLaws
  import opened ManagerModel
  import opened PipelineModel

  const UNINSTALL_POLICY := "disallowed_uninstall_bundles"

  /** How the renaming of the policies ends, what the bundle service answers when the old application may be uninstalled
      again and the new one no longer, and how the two row calls of the rewriting end. */
  datatype PolicyIo = PolicyIo(renamed: Outcome, ruleDropped: bool, ruleAdded: bool, combined: Outcome, own: Outcome)

  const ALL_DONE := PolicyIo(Done, true, true, Done, Done)

  // ----- Texts -----

  predicate StandsAt(text: string, name: string, k: nat) {
    k + |name| <= |text| && text[k..k + |name|] == name
  }

  /** Where a name first stands in a text. */
  function FindText(text: string, name: string): (place: Option<nat>)
    ensures place.Some? ==> StandsAt(text, name, place.value)
  {
    if |text| < |name| then None
    else if text[..|name|] == name then Some(0)
    else
      match FindText(text[1..], name)
      case Some(k) => assert StandsAt(text[1..], name, k); Shifted(text, name, k); Some(k + 1)
      case None => None
  }

  lemma Shifted(text: string, name: string, k: nat)
    requires text != ""
    ensures StandsAt(text[1..], name, k) <==> StandsAt(text, name, k + 1)
  {
    if k + 1 + |name| <= |text| { assert text[1..][k..k + |name|] == text[k + 1..k + 1 + |name|]; }
  }

  /** It is found wherever it stands, and no later than there. */
  lemma {:induction false} FoundFirst(text: string, name: string, k: nat)
    requires StandsAt(text, name, k)
    ensures FindText(text, name).Some? && FindText(text, name).value <= k
  {
    if text[..|name|] != name {
      assert k > 0;
      Shifted(text, name, k - 1);
      FoundFirst(text[1..], name, k - 1);
    }
  }

  /** The first occurrence of the name is replaced. */
  function Rewrite(text: string, name: string, newName: string): string {
    match FindText(text, name)
    case Some(k) => text[..k] + newName + text[k + |name|..]
    case None => text
  }

  /** An occurrence of the name is the one that is replaced exactly when the name does not stand before it. */
  lemma RewritesPlaceIff(text: string, name: string, k: nat)
    requires StandsAt(text, name, k)
    ensures FindText(text, name) == Some(k) <==> forall j: nat :: j < k ==> !StandsAt(text, name, j)
  {
    FoundFirst(text, name, k);
    if FindText(text, name) == Some(k) {
      forall j: nat | j < k ensures !StandsAt(text, name, j) {
        if StandsAt(text, name, j) { FoundFirst(text, name, j); }
      }
    }
  }

  /** A list in which an identifier that begins with the name stands before the name. */
  function BehindAnother(name: string, tail: string, rest: string): string {
    "[\"" + name + tail + rest
  }

  lemma FirstChar(text: string, name: string, k: nat)
    requires name != "" && StandsAt(text, name, k)
    ensures text[k] == name[0]
  {
    assert text[k..k + |name|][0] == name[0];
  }

  lemma FoundBehind(name: string, tail: string, rest: string)
    requires name != "" && name[0] != '[' && name[0] != '"'
    ensures FindText(BehindAnother(name, tail, rest), name) == Some(2)
  {
    var text := BehindAnother(name, tail, rest);
    assert text[2..2 + |name|] == name && text[0] == '[' && text[1] == '"';
    FoundFirst(text, name, 2);
    FirstChar(text, name, FindText(text, name).value);
  }

  /** It is that identifier that is changed, and the name behind it is not. */
  lemma OtherNameRewritten(name: string, newName: string, tail: string, rest: string)
    requires name != "" && name[0] != '[' && name[0] != '"'
    ensures Rewrite(BehindAnother(name, tail, rest), name, newName) == BehindAnother(newName, tail, rest)
  {
    var text := BehindAnother(name, tail, rest);
    FoundBehind(name, tail, rest);
    assert text[..2] == "[\"" && text[2 + |name|..] == tail + rest;
  }

  // ----- The store -----

  /** The uninstall policy of an administrator, or the combined one. */
  function Uninstall(s: ManagerState, admin: string): string {
    OrEmpty(ReadPolicy(CacheOf(s, DEFAULT_USER_ID), admin, UNINSTALL_POLICY))
  }

  predicate NamesItself(s: ManagerState, name: string) {
    Uninstall(s, name) != "" && FindText(Uninstall(s, name), name).Some?
  }

  function Rewritten(s: ManagerState, own: string, merged: string, name: string, newName: string, io: PolicyIo)
    : ManagerResult
  {
    SetPolicyAll(s, DEFAULT_USER_ID, newName, UNINSTALL_POLICY, Rewrite(own, name, newName),
                 Rewrite(merged, name, newName), LOAD_OK, io.combined, io.own)
  }

  /** The policies of the default user after the administrator was renamed. */
  function KeepStore(s: ManagerState, name: string, newName: string, io: PolicyIo): ManagerState {
    var renamed := ReplaceAllSpec(s, DEFAULT_USER_ID, name, newName, LOAD_OK, io.renamed).state;
    if io.renamed == Done && NamesItself(s, name) && io.ruleDropped && io.ruleAdded
    then Rewritten(renamed, Uninstall(s, name), Uninstall(s, ""), name, newName, io).state
    else renamed
  }

  /** Whether all of it succeeded. */
  function KeepOk(s: ManagerState, name: string, newName: string, io: PolicyIo): bool {
    var renamed := ReplaceAllSpec(s, DEFAULT_USER_ID, name, newName, LOAD_OK, io.renamed).state;
    && io.renamed == Done
    && (NamesItself(s, name) ==>
          && io.ruleDropped && io.ruleAdded
          && Rewritten(renamed, Uninstall(s, name), Uninstall(s, ""), name, newName, io).err == ErrOk)
  }

  lemma RenamedCombined(s: ManagerState, name: string, newName: string, io: Outcome, u: int, q: string)
    ensures Combined(ReplaceAllSpec(s, DEFAULT_USER_ID, name, newName, LOAD_OK, io).state, u, q) == Combined(s, u, q)
  {
    if u != DEFAULT_USER_ID {
      ReplaceOtherUser(CacheOf(s, DEFAULT_USER_ID), s.tables, DEFAULT_USER_ID, name, newName, io, u);
    }
  }

  /** The value the new name has of a policy. */
  function KeptValue(s: ManagerState, name: string, newName: string, io: PolicyIo, q: string): Option<string> {
    if q == UNINSTALL_POLICY && NamesItself(s, name) && io.ruleDropped && io.ruleAdded && io.own == Done
    then Some(Rewrite(Uninstall(s, name), name, newName))
    else Value(s, DEFAULT_USER_ID, name, q)
  }

  /** Every policy of the old name goes to the new one as it is, but for the text of the uninstall policy; nothing else
      of any user changes, but for the combined text of that policy. */
  lemma KeptPolicies(s: ManagerState, name: string, newName: string, io: PolicyIo)
    requires AllMirror(s) && ReplaceIsSafe(CacheOf(s, DEFAULT_USER_ID), name, newName) && io.renamed == Done
    requires name != "" && newName != "" && name in CacheOf(s, DEFAULT_USER_ID).admins
    ensures var s' := KeepStore(s, name, newName, io);
            && AllMirror(s')
            && (forall u, x, q :: Value(s', u, x, q) ==
                  if u != DEFAULT_USER_ID then Value(s, u, x, q)
                  else if x == newName then KeptValue(s, name, newName, io, q)
                  else if x == name then None else Value(s, u, x, q))
            && (forall u, q :: Combined(s', u, q) ==
                  if u == DEFAULT_USER_ID && q == UNINSTALL_POLICY && NamesItself(s, name) && io.ruleDropped &&
                     io.ruleAdded && io.combined == Done
                  then Present(Rewrite(Uninstall(s, ""), name, newName)) else Combined(s, u, q))
  {
    var renamed := ReplaceAllSpec(s, DEFAULT_USER_ID, name, newName, LOAD_OK, io.renamed).state;
    ReplaceRefinesMap(s, DEFAULT_USER_ID, name, newName, io.renamed);
    forall u, q ensures Combined(renamed, u, q) == Combined(s, u, q) {
      RenamedCombined(s, name, newName, io.renamed, u, q);
    }
    if NamesItself(s, name) && io.ruleDropped && io.ruleAdded {
      assert Rewrite(Uninstall(s, name), name, newName) != "";
      SetPolicyRefinesMap(renamed, DEFAULT_USER_ID, newName, UNINSTALL_POLICY,
                          Rewrite(Uninstall(s, name), name, newName),
        Rewrite(Uninstall(s, ""), name, newName), io.combined, io.own);
    }
  }

  lemma AllDoneIsOk(s: ManagerState, name: string, newName: string)
    ensures KeepOk(s, name, newName, ALL_DONE)
  {
  }

  /** An administrator whose list has an application before it whose identifier begins with its name: after a complete
      replacement the list names a third application in place of that one, and the rest of it, the old administrator
      included, is as it was. */
  lemma ReplacementRewritesAnother(s: ManagerState, name: string, newName: string, tail: string, rest: string)
    requires AllMirror(s) && ReplaceIsSafe(CacheOf(s, DEFAULT_USER_ID), name, newName)
    requires name != "" && name[0] != '[' && name[0] != '"' && newName != ""
    requires Value(s, DEFAULT_USER_ID, name, UNINSTALL_POLICY) == Some(BehindAnother(name, tail, rest))
    ensures KeepOk(s, name, newName, ALL_DONE)
    ensures Value(KeepStore(s, name, newName, ALL_DONE), DEFAULT_USER_ID, newName, UNINSTALL_POLICY) ==
            Some(BehindAnother(newName, tail, rest))
  {
    AllDoneIsOk(s, name, newName);
    OtherNameRewritten(name, newName, tail, rest);
    FoundBehind(name, tail, rest);
    KeptPolicies(s, name, newName, ALL_DONE);
  }
}
