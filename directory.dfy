/**
 * The user table as the login view uses it: the probe for an unused username
 * and find-or-create by email.
 */
module Directory {
  import opened Wrappers
  import Text

  /** One row of the user table, with the fields the view sets. */
  datatype UserRecord = UserRecord(
    username: string,
    email: string,
    firstName: string,
    lastName: string,
    registrationMethod: string)

  /** Provenance tag that the view gives to the records it creates. */
  const GoogleMethod := "google"

  /** The username of every record. */
  function UsernamesOf(records: seq<UserRecord>): (names: set<string>)
    ensures forall i :: 0 <= i < |records| ==> records[i].username in names
    ensures forall name :: name in names ==> exists i :: 0 <= i < |records| && records[i].username == name
  {
    set i | 0 <= i < |records| :: records[i].username
  }

  /** No two records share a username. */
  ghost predicate UniqueUsernames(records: seq<UserRecord>) {
    forall i, j :: 0 <= i < j < |records| ==> records[i].username != records[j].username
  }

  /** No two records share an email. */
  ghost predicate UniqueEmails(records: seq<UserRecord>) {
    forall i, j :: 0 <= i < j < |records| ==> records[i].email != records[j].email
  }

  /** Some record has this email. */
  ghost predicate HasEmail(records: seq<UserRecord>, email: string) {
    exists i :: 0 <= i < |records| && records[i].email == email
  }

  /** `User.objects.get(email=email)`: the position of a record with this email, if any. */
  function EmailIndex(records: seq<UserRecord>, email: string): (r: Option<nat>)
    ensures r.Some? ==> r.value < |records| && records[r.value].email == email
    ensures r.None? <==> !HasEmail(records, email)
  {
    if records == [] then None
    else if records[0].email == email then Some(0)
    else
      match EmailIndex(records[1..], email)
      case Some(i) =>
        assert records[i + 1] == records[1..][i];
        Some(i + 1)
      case None =>
        assert forall i :: 1 <= i < |records| ==> records[i] == records[1..][i - 1];
        None
  }

  /** With unique emails, a record carrying the email is the one `EmailIndex` finds. */
  lemma EmailIndexUnique(records: seq<UserRecord>, email: string, i: nat)
    requires UniqueEmails(records)
    requires i < |records| && records[i].email == email
    ensures EmailIndex(records, email) == Some(i)
  {
  }

  /** The `k`-th name the probe tries: `base` for 0, and `base_k` (that is, `f"{base}_{k}"`) from 1 on. */
  function Candidate(base: string, k: nat): (name: string)
  {
    if k == 0 then base else base + "_" + Text.Decimal(k)
  }

  /** Distinct probe steps try distinct names. */
  lemma CandidateInjective(base: string, j: nat, k: nat)
    requires Candidate(base, j) == Candidate(base, k)
    ensures j == k
  {
    if j != 0 && k != 0 {
      var n := |base| + 1;
      assert Text.Decimal(j) == Candidate(base, j)[n..];
      assert Text.Decimal(k) == Candidate(base, k)[n..];
      Text.DecimalInjective(j, k);
    }
  }

  /** The names tried before step `k`. */
  function Tried(base: string, k: nat): (names: set<string>)
  {
    set j | 0 <= j < k :: Candidate(base, j)
  }

  /** Step `k` tries a name not tried before, and adds exactly it to the names tried. */
  lemma TriedStep(base: string, k: nat)
    ensures Candidate(base, k) !in Tried(base, k)
    ensures Tried(base, k + 1) == Tried(base, k) + {Candidate(base, k)}
  {
    if Candidate(base, k) in Tried(base, k) {
      var j :| 0 <= j < k && Candidate(base, j) == Candidate(base, k);
      CandidateInjective(base, j, k);
    }
  }

  /**
   * The first probe step, from `k` on, whose name is not in `used`. It exists
   * because `used` is finite and every step tries a new name.
   */
  function FirstFreeSuffixFrom(base: string, used: set<string>, k: nat): (m: nat)
    ensures k <= m
    ensures Candidate(base, m) !in used
    ensures forall j :: k <= j < m ==> Candidate(base, j) in used
    decreases used - Tried(base, k)
  {
    if Candidate(base, k) !in used then k
    else
      TriedStep(base, k);
      assert Candidate(base, k) in used - Tried(base, k);
      FirstFreeSuffixFrom(base, used, k + 1)
  }

  /** Any step that is free while every step between `k` and it is taken is the one found from `k`. */
  lemma FirstFreeSuffixFromIs(base: string, used: set<string>, k: nat, m: nat)
    requires k <= m
    requires Candidate(base, m) !in used
    requires forall j :: k <= j < m ==> Candidate(base, j) in used
    ensures FirstFreeSuffixFrom(base, used, k) == m
  {
  }

  /** The username the probe settles on: the first of `base`, `base_1`, `base_2`, ... not in `used`. */
  function FirstUnused(base: string, used: set<string>): (name: string)
  {
    Candidate(base, FirstFreeSuffixFrom(base, used, 0))
  }

  /**
   * The chosen name is unused; it is `base` when `base` is unused, and
   * otherwise `base_k` for the least `k >= 1` with `base_k` unused, `base`
   * and every `base_j` with `1 <= j < k` being taken.
   */
  lemma FirstUnusedIsLeast(base: string, used: set<string>)
    ensures FirstUnused(base, used) !in used
    ensures base !in used ==> FirstUnused(base, used) == base
    ensures base in used ==>
              exists k :: 1 <= k && FirstUnused(base, used) == base + "_" + Text.Decimal(k) &&
                (forall j :: 1 <= j < k ==> base + "_" + Text.Decimal(j) in used)
  {
    var m := FirstFreeSuffixFrom(base, used, 0);
    if base in used {
      assert m != 0;
      assert FirstUnused(base, used) == base + "_" + Text.Decimal(m);
      forall j | 1 <= j < m ensures base + "_" + Text.Decimal(j) in used {
        assert Candidate(base, j) in used;
      }
    }
  }

  /** The record the view creates for a new email. */
  function NewRecord(username: string, email: string, firstName: string, lastName: string): (r: UserRecord)
    ensures r.registrationMethod == GoogleMethod
  {
    UserRecord(username, email, firstName, lastName, GoogleMethod)
  }

  /** The user the view ends up with, and the table afterwards. */
  datatype Reconciliation = Reconciliation(user: UserRecord, records: seq<UserRecord>)

  /**
   * Find-or-create, as a function of the table before the call: probe a
   * username from the email, then return the record with the email if there is
   * one, and otherwise append a new record with the probed username.
   */
  function Reconciled(records: seq<UserRecord>, email: string, firstName: string, lastName: string): (out: Reconciliation)
  {
    var username := FirstUnused(Text.LocalPart(email), UsernamesOf(records));
    match EmailIndex(records, email)
    case Some(i) => Reconciliation(records[i], records)
    case None =>
      var user := NewRecord(username, email, firstName, lastName);
      Reconciliation(user, records + [user])
  }

  /** An email already in the table gets that exact record back, and the table does not change. */
  lemma ReconcileExisting(records: seq<UserRecord>, email: string, firstName: string, lastName: string, i: nat)
    requires UniqueEmails(records)
    requires i < |records| && records[i].email == email
    ensures Reconciled(records, email, firstName, lastName) == Reconciliation(records[i], records)
  {
  }

  /**
   * A new email adds exactly one record at the end: the probed username, the
   * email, the given names and the "google" tag; the old records stay as they were.
   */
  lemma ReconcileNew(records: seq<UserRecord>, email: string, firstName: string, lastName: string)
    requires !HasEmail(records, email)
    ensures var out := Reconciled(records, email, firstName, lastName);
            && |out.records| == |records| + 1
            && out.records[..|records|] == records
            && out.records[|records|] == out.user
            && out.user == UserRecord(FirstUnused(Text.LocalPart(email), UsernamesOf(records)),
                                      email, firstName, lastName, GoogleMethod)
            && out.user.username !in UsernamesOf(records)
  {
  }

  /**
   * Find-or-create keeps usernames and emails unique, and afterwards exactly
   * one record has the email: the user returned.
   */
  lemma ReconcileKeepsInvariants(records: seq<UserRecord>, email: string, firstName: string, lastName: string)
    requires UniqueUsernames(records) && UniqueEmails(records)
    ensures var out := Reconciled(records, email, firstName, lastName);
            && UniqueUsernames(out.records)
            && UniqueEmails(out.records)
            && out.user.email == email
            && exists i :: 0 <= i < |out.records| && out.records[i] == out.user &&
                 (forall j :: 0 <= j < |out.records| && out.records[j].email == email ==> j == i)
  {
    var out := Reconciled(records, email, firstName, lastName);
    match EmailIndex(records, email)
    case Some(i) =>
      assert out.records == records && out.user == records[i];
    case None =>
      ReconcileNew(records, email, firstName, lastName);
      var n := |records|;
      forall j | 0 <= j < n ensures out.records[j] == records[j] {
        assert out.records[..n][j] == records[j];
      }
      forall j | 0 <= j < n ensures out.records[j].username != out.user.username {
        assert records[j].username in UsernamesOf(records);
      }
      forall j | 0 <= j < n ensures out.records[j].email != email {
      }
      assert out.records[n] == out.user;
  }

  /**
   * Logging in a second time with the same email returns the user created (or
   * found) the first time and leaves the table alone: first write wins.
   */
  lemma ReconcileIdempotent(records: seq<UserRecord>, email: string,
                            firstName: string, lastName: string, firstName': string, lastName': string)
    requires UniqueUsernames(records) && UniqueEmails(records)
    ensures var once := Reconciled(records, email, firstName, lastName);
            Reconciled(once.records, email, firstName', lastName') == once
  {
    var once := Reconciled(records, email, firstName, lastName);
    ReconcileKeepsInvariants(records, email, firstName, lastName);
    var i :| 0 <= i < |once.records| && once.records[i] == once.user &&
             (forall j :: 0 <= j < |once.records| && once.records[j].email == email ==> j == i);
    ReconcileExisting(once.records, email, firstName', lastName', i);
  }

  /** The user table. Its rows change only by `FindOrCreate` appending one. */
  class UserDirectory {
    var records: seq<UserRecord>

    /** The table invariants the view relies on: usernames unique, emails unique. */
    ghost predicate Valid()
      reads this
    {
      UniqueUsernames(records) && UniqueEmails(records)
    }

    /** A table holding `initial`, whose usernames and emails are already unique. */
    constructor (initial: seq<UserRecord>)
      requires UniqueUsernames(initial) && UniqueEmails(initial)
      ensures Valid() && records == initial
    {
      records := initial;
    }

    /**
     * The probe loop: try `base`, then `base_1`, `base_2`, ..., and stop at
     * the first name no record uses.
     */
    method ProbeUsername(base: string) returns (username: string)
      ensures username == FirstUnused(base, UsernamesOf(records))
      ensures username !in UsernamesOf(records)
    {
      username := base;
      var suffix := 1;
      while username in UsernamesOf(records)  // `User.objects.filter(username=username).exists()`
        invariant 1 <= suffix
        invariant username == Candidate(base, suffix - 1)
        invariant forall j :: 0 <= j < suffix - 1 ==> Candidate(base, j) in UsernamesOf(records)
        decreases UsernamesOf(records) - Tried(base, suffix - 1)
      {
        TriedStep(base, suffix - 1);
        assert username in UsernamesOf(records) - Tried(base, suffix - 1);
        username := base + "_" + Text.Decimal(suffix);
        suffix := suffix + 1;
      }
      FirstFreeSuffixFromIs(base, UsernamesOf(records), 0, suffix - 1);
    }

    /**
     * Find-or-create by email. The username is probed first, as in the view;
     * it is used only when no record has the email, in which case one record
     * is appended.
     */
    method FindOrCreate(email: string, firstName: string, lastName: string) returns (user: UserRecord)
      requires Valid()
      modifies this
      ensures Valid()
      ensures Reconciliation(user, records) == Reconciled(old(records), email, firstName, lastName)
      ensures HasEmail(old(records), email) ==>
                records == old(records) && user in old(records) && user.email == email
      ensures !HasEmail(old(records), email) ==>
                && records == old(records) + [user]
                && user == NewRecord(FirstUnused(Text.LocalPart(email), UsernamesOf(old(records))),
                                     email, firstName, lastName)
    {
      ReconcileKeepsInvariants(records, email, firstName, lastName);
      var base := Text.LocalPart(email);
      var username := ProbeUsername(base);
      match EmailIndex(records, email)
      case Some(i) =>
        user := records[i];
      case None =>
        user := NewRecord(username, email, firstName, lastName);
        records := records + [user];
    }
  }
}
