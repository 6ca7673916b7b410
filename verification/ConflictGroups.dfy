/** Which stripe lock a policy code takes. */
module ConflictGroups {

  const POLICY_CODE_END := 3000

  /** Codes without a group share stripe NONE; there are END stripes. */
  const NONE := 0
  const END := 13

  const USB := {1043, 1044, 1026, 1059, 1166, 1136, 1103}
  const BLUETOOTH := {1048, 1052, 1079}
  const SUDO := {1105, 1159}
  const NOTIFICATION := {1107, 1147}
  const DISTRIBUTED := {1104, 1156}
  const MTP := {1066, 1085}
  const WIFI := {1046, 1070, 1071}
  const PRINTER := {1180, 1181}
  const RUNNING_BUNDLES := {1015, 1119, 1063}
  const FACTORY_RESET := {1053, 1005, POLICY_CODE_END + 21, POLICY_CODE_END + 39}
  const SUPERHUB := {1125, POLICY_CODE_END + 36, POLICY_CODE_END + 34}
  const UPDATE_POLICY := {1055, 1056}

  function Members(g: int): set<int> {
    match g
    case 1 => USB
    case 2 => BLUETOOTH
    case 3 => SUDO
    case 4 => NOTIFICATION
    case 5 => DISTRIBUTED
    case 6 => MTP
    case 7 => WIFI
    case 8 => PRINTER
    case 9 => RUNNING_BUNDLES
    case 10 => FACTORY_RESET
    case 11 => SUPERHUB
    case 12 => UPDATE_POLICY
    case _ => {}
  }

  /** The group registered last wins, as in the map the constructor fills. */
  function GroupUpTo(code: int, n: nat): int {
    if n == 0 then NONE else if code in Members(n) then n else GroupUpTo(code, n - 1)
  }

  function GroupOf(code: int): int {
    GroupUpTo(code, END - 1)
  }

  /** No code is registered in two groups, so the order of the registrations does not matter. */
  lemma GroupsAreDisjoint(g: nat, h: nat)
    requires g < h < END
    ensures Members(g) !! Members(h)
  {
  }

  lemma {:induction false} GroupUpToIs(code: int, n: nat, g: nat)
    requires n < END
    ensures NONE <= GroupUpTo(code, n) <= n
    ensures 0 < g <= n && code in Members(g) ==> GroupUpTo(code, n) == g
    ensures GroupUpTo(code, n) != NONE ==> code in Members(GroupUpTo(code, n))
  {
    if n > 0 {
      GroupUpToIs(code, n - 1, g);
      if 0 < g < n { GroupsAreDisjoint(g, n); }
    }
  }

  /** A stripe is in range, and two codes of one group share it; a code of no group has stripe NONE. */
  lemma GroupOfIs(code: int, g: nat)
    ensures NONE <= GroupOf(code) < END
    ensures 0 < g < END ==> (GroupOf(code) == g <==> code in Members(g))
  {
    GroupUpToIs(code, END - 1, g);
  }

  class ConflictGroupRegistry {
    var policyToGroup: map<int, int>

    ghost predicate FilledUpTo(n: nat)
      reads this
    {
      forall code :: (if code in policyToGroup then policyToGroup[code] else NONE) == GroupUpTo(code, n)
    }

    constructor ()
      ensures FilledUpTo(END - 1)
    {
      policyToGroup := map[];
      new;
      Register(1, USB);
      Register(2, BLUETOOTH);
      Register(3, SUDO);
      Register(4, NOTIFICATION);
      Register(5, DISTRIBUTED);
      Register(6, MTP);
      Register(7, WIFI);
      Register(8, PRINTER);
      Register(9, RUNNING_BUNDLES);
      Register(10, FACTORY_RESET);
      Register(11, SUPERHUB);
      Register(12, UPDATE_POLICY);
    }

    method Register(group: nat, codes: set<int>)
      requires 0 < group && codes == Members(group) && FilledUpTo(group - 1)
      modifies this
      ensures FilledUpTo(group)
    {
      policyToGroup := policyToGroup + map code | code in codes :: group;
    }

    method GetConflictGroupId(policyCode: int) returns (group: int)
      requires FilledUpTo(END - 1)
      ensures group == GroupOf(policyCode)
    {
      group := if policyCode in policyToGroup then policyToGroup[policyCode] else NONE;
    }
  }
}
