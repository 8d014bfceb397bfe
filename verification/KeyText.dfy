/** The text of the wallet ledger's idempotency keys: distinct movements never share a key. */
module KeyText {
  import opened Rows
  import opened Arith
  import opened Books
  import Decimals

  /** `contest_id:user_id`. */
  function AdmissionText(adm: Admission): string {
    adm.contest + ":" + adm.user
  }

  function Family(k: WalletKey): string {
    match k
    case DepositKey(_) => "deposit"
    case EntryKey(_) => "contest_entry"
    case ReversalKey(_) => "contest_admission_reversal"
    case RefundKey(_) => "refund"
    case PrizeKey(_, _) => "finalization"
    case OtherKey(_) => ""
  }

  function Tail(k: WalletKey): string {
    match k
    case DepositKey(intent) => intent
    case EntryKey(adm) => AdmissionText(adm)
    case ReversalKey(adm) => AdmissionText(adm)
    case RefundKey(adm) => AdmissionText(adm)
    case PrizeKey(adm, rank) => adm.contest + ":" + (adm.user + ":" + Decimals.Print(rank))
    case OtherKey(text) => text
  }

  function KeyText(k: WalletKey): string {
    if k.OtherKey? then k.text else Family(k) + ":" + Tail(k)
  }

  predicate ColonFree(s: string) {
    ':' !in s
  }

  /** A text that begins with a family's name and a colon. */
  predicate Claims(text: string, family: string) {
    family + ":" <= text
  }

  predicate ClaimsAny(text: string) {
    || Claims(text, "deposit") || Claims(text, "contest_entry") || Claims(text, "contest_admission_reversal")
    || Claims(text, "refund") || Claims(text, "finalization")
  }

  /**
    Contest ids have no colon; neither have the user ids that a rank follows. A key a caller makes up begins with none of
    the five families.
   */
  predicate WellFormed(k: WalletKey) {
    match k
    case DepositKey(_) => true
    case EntryKey(adm) => ColonFree(adm.contest)
    case ReversalKey(adm) => ColonFree(adm.contest)
    case RefundKey(adm) => ColonFree(adm.contest)
    case PrizeKey(adm, _) => ColonFree(adm.contest) && ColonFree(adm.user)
    case OtherKey(text) => !ClaimsAny(text)
  }

  /** The first colon separates. */
  lemma Cut(a: string, x: string, b: string, y: string)
    requires ColonFree(a) && ColonFree(b) && a + ":" + x == b + ":" + y
    ensures a == b && x == y
  {
    var s, t := a + ":" + x, b + ":" + y;
    assert s[|a|] == ':' && t[|b|] == ':';
    assert |a| == |b|;
    assert s[..|a|] == a && t[..|b|] == b && s[|a| + 1..] == x && t[|b| + 1..] == y;
  }

  lemma PrintInjective(m: int, n: int)
    requires Decimals.Print(m) == Decimals.Print(n)
    ensures m == n
  {
    var s, t := Decimals.Digits(Abs(m)), Decimals.Digits(Abs(n));
    Decimals.ValueDigits(Abs(m));
    Decimals.ValueDigits(Abs(n));
    assert Decimals.IsDigit(s[0]) && Decimals.IsDigit(t[0]);
    assert (m < 0) == (n < 0);
    assert s == t by {
      if m < 0 { assert ("-" + s)[1..] == s && ("-" + t)[1..] == t; }
    }
  }

  /** Two keys with the same text are the same key: families and their fields can be read back. */
  lemma KeyTextInjective(j: WalletKey, k: WalletKey)
    requires WellFormed(j) && WellFormed(k) && KeyText(j) == KeyText(k)
    ensures j == k
  {
    hide Decimals.Print, ClaimsAny;
    FamilyClaims(j);
    FamilyClaims(k);
    if !j.OtherKey? && !k.OtherKey? { FamilyInjective(j, k); }
  }

  lemma FamilyClaims(k: WalletKey)
    ensures !k.OtherKey? ==> ClaimsAny(KeyText(k))
  {
    hide Decimals.Print, AdmissionText;
    if !k.OtherKey? { assert Claims(KeyText(k), Family(k)); }
  }

  lemma FamilyInjective(j: WalletKey, k: WalletKey)
    requires WellFormed(j) && WellFormed(k) && !j.OtherKey? && !k.OtherKey? && KeyText(j) == KeyText(k)
    ensures j == k
  {
    hide Decimals.Print, ClaimsAny;
    Cut(Family(j), Tail(j), Family(k), Tail(k));
    match j
    case DepositKey(_) =>
      assert k.DepositKey?;
    case EntryKey(adm) =>
      assert k.EntryKey?;
      Cut(adm.contest, adm.user, k.adm.contest, k.adm.user);
    case ReversalKey(adm) =>
      assert k.ReversalKey?;
      Cut(adm.contest, adm.user, k.adm.contest, k.adm.user);
    case RefundKey(adm) =>
      assert k.RefundKey?;
      Cut(adm.contest, adm.user, k.adm.contest, k.adm.user);
    case PrizeKey(adm, rank) =>
      assert k.PrizeKey?;
      Cut(adm.contest, adm.user + ":" + Decimals.Print(rank), k.adm.contest, k.adm.user + ":" + Decimals.Print(k.rank));
      Cut(adm.user, Decimals.Print(rank), k.adm.user, Decimals.Print(k.rank));
      PrintInjective(rank, k.rank);
  }

  /** The condition on made-up keys is needed: this text is a deposit's key. */
  lemma MadeUpKeyCollides(intent: IntentId)
    ensures KeyText(OtherKey("deposit:" + intent)) == KeyText(DepositKey(intent)) && ClaimsAny("deposit:" + intent)
  {
    assert "deposit" + ":" + intent == "deposit:" + intent;
    assert Claims("deposit:" + intent, "deposit");
  }

  lemma Regroup(family: string, head: string, a: string, b: string)
    requires head == family + ":"
    ensures family + ":" + (a + ":" + b) == head + a + ":" + b
  {
  }

  /** The texts that the wallet service and the finalizer write. */
  lemma KeyTexts(adm: Admission, intent: IntentId, rank: int)
    ensures KeyText(DepositKey(intent)) == "deposit:" + intent
    ensures KeyText(EntryKey(adm)) == "contest_entry:" + adm.contest + ":" + adm.user
    ensures KeyText(ReversalKey(adm)) == "contest_admission_reversal:" + adm.contest + ":" + adm.user
    ensures KeyText(RefundKey(adm)) == "refund:" + adm.contest + ":" + adm.user
    ensures KeyText(PrizeKey(adm, rank)) == "finalization:" + adm.contest + ":" + (adm.user + ":" + Decimals.Print(rank))
  {
    hide Decimals.Print;
    assert "deposit" + ":" == "deposit:";
    Regroup("contest_entry", "contest_entry:", adm.contest, adm.user);
    Regroup("contest_admission_reversal", "contest_admission_reversal:", adm.contest, adm.user);
    Regroup("refund", "refund:", adm.contest, adm.user);
    Regroup("finalization", "finalization:", adm.contest, adm.user + ":" + Decimals.Print(rank));
  }
}
