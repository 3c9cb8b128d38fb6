/** How snapshot directory names are read back, and what that makes of plugin ids. */
module SnapshotGroups {
  import opened SnapshotNames

  predicate HasHyphen(s: string) { '-' in s }

  /** The text after the last hyphen; everything if there is none. */
  function AfterLastHyphen(s: string): (r: string)
    ensures !HasHyphen(r)
    ensures r == s <==> !HasHyphen(s)
  {
    if s == "" then ""
    else if s[|s| - 1] == '-' then ""
    else
      assert s == s[..|s| - 1] + [s[|s| - 1]];
      AfterLastHyphen(s[..|s| - 1]) + [s[|s| - 1]]
  }

  /** The text before the last hyphen. */
  function BeforeLastHyphen(s: string): (r: string)
    requires HasHyphen(s)
    ensures s == r + "-" + AfterLastHyphen(s)
  {
    if s[|s| - 1] == '-' then s[..|s| - 1]
    else
      assert s == s[..|s| - 1] + [s[|s| - 1]];
      BeforeLastHyphen(s[..|s| - 1])
  }

  /** `parts = name.rsplit("-", 2)`, and of three parts the middle one. */
  function GroupKey(name: string): string {
    if HasHyphen(name) && HasHyphen(BeforeLastHyphen(name)) then AfterLastHyphen(BeforeLastHyphen(name)) else name
  }

  lemma {:induction false} LastHyphenIs(front: string, back: string)
    requires !HasHyphen(back)
    ensures var s := front + "-" + back; HasHyphen(s) && BeforeLastHyphen(s) == front && AfterLastHyphen(s) == back
  {
    var s := front + "-" + back;
    assert s[|front|] == '-';
    if back != "" {
      var n := |back| - 1;
      assert back[n] in back && back == back[..n] + [back[n]];
      assert s[..|s| - 1] == front + "-" + back[..n];
      LastHyphenIs(front, back[..n]);
    } else {
      assert s[..|s| - 1] == front;
    }
  }

  lemma {:induction false} AfterLastHyphenOf(front: string, back: string)
    ensures AfterLastHyphen(front + "-" + back) == AfterLastHyphen(back)
  {
    var s := front + "-" + back;
    if back != "" && back[|back| - 1] != '-' {
      assert s[..|s| - 1] == front + "-" + back[..|back| - 1];
      AfterLastHyphenOf(front, back[..|back| - 1]);
    }
  }

  /** Whatever the step, the item and the time: the name is read back as the text after the
      item id's last hyphen, so it is the id itself exactly when the id has no hyphen. */
  lemma {:induction false} ParsedKey(stepId: string, itemId: string, now: nat)
    ensures GroupKey(SnapshotName(stepId, itemId, now)) == AfterLastHyphen(itemId)
    ensures GroupKey(SnapshotName(stepId, itemId, now)) == itemId <==> !HasHyphen(itemId)
  {
    var front, digits := stepId + "-" + itemId, Decimal(now);
    assert !HasHyphen(digits);
    assert SnapshotName(stepId, itemId, now) == front + "-" + digits;
    LastHyphenIs(front, digits);
    assert front[|stepId|] == '-';
    AfterLastHyphenOf(stepId, itemId);
  }

  /** Two snapshots are counted together exactly when their ids agree after the last hyphen:
      for ids without hyphens that means the same id, of either kind of item. */
  lemma {:induction false} CountedTogether(step: string, item: string, now: nat, otherStep: string,
      otherItem: string, later: nat)
    ensures GroupKey(SnapshotName(step, item, now)) == GroupKey(SnapshotName(otherStep, otherItem, later)) <==>
            AfterLastHyphen(item) == AfterLastHyphen(otherItem)
    ensures !HasHyphen(item) && !HasHyphen(otherItem) ==>
            (GroupKey(SnapshotName(step, item, now)) == GroupKey(SnapshotName(otherStep, otherItem, later)) <==> item == otherItem)
  {
    ParsedKey(step, item, now);
    ParsedKey(otherStep, otherItem, later);
  }
}
