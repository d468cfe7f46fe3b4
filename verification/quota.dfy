/**
 * The daily prompt quota of the `/ask` endpoint: the table `user_prompts`
 * mapping a user id to the date of their last counted prompt and how many
 * prompts they made that day, `can_user_ask`, and the table's JSON file.
 */
module Quota {
  import opened Wrappers
  import opened Dates

  /** The one user id the quota never applies to. */
  const Whitelisted: string := "f20221077@goa.bits-pilani.ac.in"

  /** Prompts allowed per user per date. */
  const DailyLimit: int := 5

  /** `(last_date, count)`. */
  datatype Entry = Entry(lastDate: Date, count: int)

  type Table = map<string, Entry>

  /** What `json.dump` writes: per user, the date text and the count. */
  type Saved = map<string, (string, int)>

  /** Every stored date is one `datetime.date` can hold. */
  predicate ValidTable(t: Table) {
    forall u :: u in t ==> ValidDate(t[u].lastDate)
  }

  // ----- save_data / load_data ------------------------------------------------

  /** `save_data`'s dict comprehension: each date becomes its `%Y-%m-%d` text. */
  function SaveTable(t: Table): (j: Saved)
    requires ValidTable(t)
    ensures j.Keys == t.Keys
    ensures forall u :: u in j ==> Canonical(j[u].0) && j[u].1 == t[u].count
  {
    map u | u in t :: (FormatDate(t[u].lastDate), t[u].count)
  }

  /** Why `load_data` raises. */
  datatype LoadError = BadDate

  /** Every date text of a saved table parses. */
  predicate Parses(j: Saved) {
    forall u :: u in j ==> ParseDate(j[u].0).Some?
  }

  /**
   * `load_data()`: `None` is a missing file (FileNotFoundError, an empty
   * table); a date text `strptime` rejects raises, and nothing catches it.
   */
  function LoadTable(file: Option<Saved>): (r: Result<Table, LoadError>)
    ensures r.Ok? ==> ValidTable(r.value)
    ensures file.None? ==> r == Ok(map[])
    ensures r.Err? <==> file.Some? && !Parses(file.value)
    ensures file.Some? && r.Ok? ==> r.value == Entries(file.value)
  {
    match file
    case None => Ok(map[])
    case Some(j) =>
      if Parses(j) then Ok(Entries(j)) else Err(BadDate)
  }

  /** The loop of `load_data` over a file whose dates all parse. */
  function Entries(j: Saved): (t: Table)
    requires Parses(j)
    ensures t.Keys == j.Keys
    ensures forall u :: u in t ==> t[u] == Entry(ParseDate(j[u].0).value, j[u].1)
  {
    map u | u in j :: Entry(ParseDate(j[u].0).value, j[u].1)
  }

  /** Loading a saved table gives back the same users, dates and counts. */
  lemma SaveThenLoad(t: Table)
    requires ValidTable(t)
    ensures LoadTable(Some(SaveTable(t))) == Ok(t)
  {
    var j := SaveTable(t);
    forall u | u in j
      ensures ParseDate(j[u].0) == Some(t[u].lastDate)
    {
      ParseFormat(t[u].lastDate);
    }
    assert Parses(j);
    var back := Entries(j);
    assert back == t;
  }

  /**
   * A loaded file keeps its users and counts; saving it again reproduces
   * the file exactly when every date text was zero-padded, since `strptime`
   * also accepts texts like "2024-1-5" that `strftime` never writes.
   */
  lemma LoadThenSave(j: Saved)
    requires LoadTable(Some(j)).Ok?
    ensures var t := LoadTable(Some(j)).value;
      t.Keys == j.Keys && (forall u :: u in t ==> t[u].count == j[u].1) &&
      (SaveTable(t) == j <==> forall u :: u in j ==> Canonical(j[u].0))
  {
    assert LoadTable(Some(j)) == Ok(Entries(j));
    if forall u :: u in j ==> Canonical(j[u].0) {
      ResaveCanonical(j);
    }
  }

  lemma ResaveCanonical(j: Saved)
    requires Parses(j) && forall u :: u in j ==> Canonical(j[u].0)
    ensures SaveTable(Entries(j)) == j
  {
    var back := SaveTable(Entries(j));
    forall u | u in j
      ensures back[u] == j[u]
    {
      ResaveEntry(j, u);
    }
  }

  /** One entry of a loaded file with a zero-padded date is saved back as it was. */
  lemma ResaveEntry(j: Saved, u: string)
    requires Parses(j) && u in j && Canonical(j[u].0)
    ensures SaveTable(Entries(j))[u] == j[u]
  {
    var t := Entries(j);
    assert t[u] == Entry(ParseDate(j[u].0).value, j[u].1);
    FormatParse(j[u].0);
  }

  // ----- can_user_ask -----------------------------------------------------------

  /**
   * `can_user_ask(user_id)` on the table `t`, with `datetime.now().date()`
   * given as `today`: the answer and the table afterwards. The user is
   * refused exactly when they are not whitelisted and already have the
   * daily limit or more recorded for today; a refusal changes nothing, and
   * an allowed user who is not whitelisted is recorded for today with a
   * count of at most the limit.
   */
  function CheckQuota(t: Table, user: string, today: Date): (r: (bool, Table))
    ensures !r.0 <==> user != Whitelisted && user in t && t[user].lastDate == today && t[user].count >= DailyLimit
    ensures !r.0 || user == Whitelisted ==> r.1 == t
    ensures r.0 && user != Whitelisted ==>
      user in r.1 && r.1[user].lastDate == today && r.1[user].count <= DailyLimit
  {
    if user == Whitelisted then (true, t)
    else if user !in t || t[user].lastDate != today then (true, t[user := Entry(today, 1)])
    else if t[user].count < DailyLimit then (true, t[user := Entry(today, t[user].count + 1)])
    else (false, t)
  }

  /**
   * The outcomes case by case: the whitelisted id is always allowed and
   * changes nothing; a new user or a new date restarts the count at 1; on
   * the same date a count below 5 goes up by one, and at 5 or more the user
   * is refused and nothing changes.
   */
  lemma CheckQuotaCases(t: Table, user: string, today: Date)
    ensures user == Whitelisted ==> CheckQuota(t, user, today) == (true, t)
    ensures user != Whitelisted && (user !in t || t[user].lastDate != today) ==>
      CheckQuota(t, user, today) == (true, t[user := Entry(today, 1)])
    ensures user != Whitelisted && user in t && t[user].lastDate == today ==>
      CheckQuota(t, user, today) ==
        if t[user].count < DailyLimit then (true, t[user := Entry(today, t[user].count + 1)]) else (false, t)
  {
  }

  /** Only the asking user's entry can change or be added; every other entry stays. */
  lemma OnlyUserChanges(t: Table, user: string, today: Date)
    ensures var r := CheckQuota(t, user, today);
      r.1.Keys == t.Keys + (if r.0 && user != Whitelisted then {user} else {})
    ensures var t' := CheckQuota(t, user, today).1;
      forall u :: u != user && u in t ==> t'[u] == t[u]
  {
  }

  /** Every count lies between 1 and the daily limit. */
  predicate CountsInRange(t: Table) {
    forall u :: u in t ==> 1 <= t[u].count <= DailyLimit
  }

  /** Counts between 1 and 5 stay between 1 and 5. */
  lemma CheckQuotaKeepsRange(t: Table, user: string, today: Date)
    requires CountsInRange(t)
    ensures CountsInRange(CheckQuota(t, user, today).1)
  {
  }

  // ----- At most five a day -----------------------------------------------------

  /** A sequence of calls `(user_id, today)`. */
  datatype Call = Call(user: string, today: Date)

  /** The clock never goes back: call dates never decrease. */
  predicate Chronological(calls: seq<Call>) {
    forall i, j :: 0 <= i < j < |calls| ==> DateLe(calls[i].today, calls[j].today)
  }

  /** How many of `calls` by `user` on `day` are allowed, starting from table `t`. */
  function AllowedOn(t: Table, calls: seq<Call>, user: string, day: Date): nat
    decreases |calls|
  {
    if calls == [] then 0
    else
      var (ok, t') := CheckQuota(t, calls[0].user, calls[0].today);
      (if ok && calls[0] == Call(user, day) then 1 else 0) + AllowedOn(t', calls[1..], user, day)
  }

  /** What `user` has already used of `day`'s quota in `t`, capped at the limit. */
  function Used(t: Table, user: string, day: Date): nat {
    if user in t && t[user].lastDate == day then
      (if t[user].count <= 0 then 0 else if t[user].count >= DailyLimit then DailyLimit else t[user].count)
    else 0
  }

  /** No call is by `user` on `day`. */
  lemma NoneOnDay(t: Table, calls: seq<Call>, user: string, day: Date)
    requires forall i :: 0 <= i < |calls| ==> calls[i] != Call(user, day)
    ensures AllowedOn(t, calls, user, day) == 0
    decreases |calls|
  {
    if calls != [] {
      NoneOnDay(CheckQuota(t, calls[0].user, calls[0].today).1, calls[1..], user, day);
    }
  }

  /**
   * With a clock that never goes back and a stored entry that is not in the
   * future, a user other than the whitelisted one is allowed at most 5
   * prompts on any date, counting those the table already records.
   */
  lemma {:induction false} AtMostFivePerDay(t: Table, calls: seq<Call>, user: string, day: Date)
    requires user != Whitelisted
    requires Chronological(calls)
    requires user in t ==> t[user].count >= 0 && forall i :: 0 <= i < |calls| ==> DateLe(t[user].lastDate, calls[i].today)
    ensures AllowedOn(t, calls, user, day) + Used(t, user, day) <= DailyLimit
    decreases |calls|
  {
    if calls != [] {
      var c := calls[0];
      var (ok, t') := CheckQuota(t, c.user, c.today);
      var rest := calls[1..];
      assert Chronological(rest);
      OnlyUserChanges(t, c.user, c.today);
      if c.user == user {
        assert user in t' ==> forall i :: 0 <= i < |rest| ==> DateLe(t'[user].lastDate, rest[i].today) by {
          if user in t' {
            forall i | 0 <= i < |rest|
              ensures DateLe(t'[user].lastDate, rest[i].today)
            {
              assert DateLe(c.today, calls[i + 1].today);
            }
          }
        }
        AtMostFivePerDay(t', rest, user, day);
        if c.today != day && Used(t, user, day) > 0 {
          forall i | 0 <= i < |rest|
            ensures rest[i] != Call(user, day)
          {
            assert DateLe(t[user].lastDate, c.today) && DateLe(c.today, calls[i + 1].today);
          }
          NoneOnDay(t', rest, user, day);
        }
      } else {
        assert t' == t || t' == t[c.user := t'[c.user]];
        assert user in t' <==> user in t;
        assert user in t ==> t'[user] == t[user];
        AtMostFivePerDay(t', rest, user, day);
      }
    }
  }

  // ----- The table as the server holds it ---------------------------------------

  /**
   * The global `user_prompts` and its JSON file: `prompts` is the table in
   * memory and `file` what `save_data` last wrote (`None` before any write
   * when no file existed).
   */
  class PromptQuota {
    var prompts: Table
    var file: Option<Saved>

    predicate Valid()
      reads this
    {
      ValidTable(prompts)
    }

    /** `user_prompts = load_data()` at start-up, for a file that loads. */
    constructor (file: Option<Saved>)
      requires LoadTable(file).Ok?
      ensures Valid() && prompts == LoadTable(file).value && this.file == file
    {
      prompts := LoadTable(file).value;
      this.file := file;
    }

    /**
     * `can_user_ask(user_id)`: decides, updates the entry and, whenever it
     * changed the table, saves the whole table.
     */
    method CanUserAsk(user: string, today: Date) returns (allowed: bool)
      requires Valid() && ValidDate(today)
      modifies this
      ensures Valid()
      ensures (allowed, prompts) == CheckQuota(old(prompts), user, today)
      ensures file == if allowed && user != Whitelisted then Some(SaveTable(prompts)) else old(file)
    {
      if user == Whitelisted {
        return true;
      }
      if user in prompts {
        var entry := prompts[user];
        if entry.lastDate != today {
          prompts := prompts[user := Entry(today, 1)];
          file := Some(SaveTable(prompts));
          return true;
        } else if entry.count < DailyLimit {
          prompts := prompts[user := Entry(today, entry.count + 1)];
          file := Some(SaveTable(prompts));
          return true;
        } else {
          return false;
        }
      } else {
        prompts := prompts[user := Entry(today, 1)];
        file := Some(SaveTable(prompts));
        return true;
      }
    }
  }
}
