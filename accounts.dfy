/**
 * Customer accounts (`LoginScreen`, `RegisterScreen`, `UserSettingsDialog`).
 *
 * `customers.txt` holds one `username:password` line per account and
 * `profiles.txt` one `username:first:middle:last` line per profile. Both are
 * loaded into the static maps `customers` and `profiles`; registration adds
 * an account, the settings dialog renames it or changes its password and
 * name parts, and the login screen checks a password against the map.
 *
 * The files are sequences of lines. The maps are Java `HashMap`s, whose
 * iteration order decides the order in which a rewritten file lists its
 * lines; the model states what a rewritten file holds as a set of lines.
 */
module Accounts {
  import opened Wrappers
  import opened JavaText

  const Colon: char := ':'

  /** First, middle and last name of a customer; empty when not given. */
  datatype Profile = Profile(first: string, middle: string, last: string)

  const NoProfile: Profile := Profile("", "", "")

  // ---------------------------------------------------------------- lines of the two files

  /** The `customers.txt` line of an account. */
  function CustomerLine(username: string, password: string): string {
    username + [Colon] + password
  }

  /** The `profiles.txt` line of a profile. */
  function ProfileLine(username: string, p: Profile): string {
    username + [Colon] + p.first + [Colon] + p.middle + [Colon] + p.last
  }

  /** `loadCustomers`: a line counts when `split(":")` yields exactly two parts. */
  function ReadCustomerLine(line: string): Option<(string, string)> {
    var parts := JavaSplit(line, [Colon]);
    if |parts| == 2 then Some((parts[0], parts[1])) else None
  }

  /** `loadProfiles`: a line counts when `split(":", 4)` yields four parts. */
  function ReadProfileLine(line: string): Option<(string, Profile)> {
    var p := JavaSplitLimit(line, [Colon], 4);
    if |p| == 4 then Some((p[0], Profile(p[1], p[2], p[3]))) else None
  }

  /** An account whose line reads back as itself. */
  predicate StorableAccount(username: string, password: string) {
    Colon !in username && Colon !in password && password != []
  }

  /** A profile whose line reads back as itself; the last name may hold colons. */
  predicate StorableProfile(username: string, p: Profile) {
    Colon !in username && Colon !in p.first && Colon !in p.middle
  }

  lemma CustomerLineRoundTrip(username: string, password: string)
    requires StorableAccount(username, password)
    ensures ReadCustomerLine(CustomerLine(username, password)) == Some((username, password))
  {
    SplitAtFirst(username, Colon, password);
    IndexOfFreeChar(password, Colon);
    IndexOfAfterFree(username, Colon, password);
    assert SplitAll(CustomerLine(username, password), [Colon]) == [username, password];
  }

  lemma ProfileLineRoundTrip(username: string, p: Profile)
    requires StorableProfile(username, p)
    ensures ReadProfileLine(ProfileLine(username, p)) == Some((username, p))
  {
    var r2 := p.middle + [Colon] + p.last;
    var r1 := p.first + [Colon] + r2;
    assert ProfileLine(username, p) == username + [Colon] + r1;
    SplitLimitAtFirst(username, Colon, r1, 4);
    SplitLimitAtFirst(p.first, Colon, r2, 3);
    SplitLimitAtFirst(p.middle, Colon, p.last, 2);
    assert JavaSplitLimit(p.last, [Colon], 1) == [p.last];
  }

  /**
   * Registration accepts a password with a colon, but its line then never
   * reads back as that account: after a restart the password is lost.
   */
  lemma ColonPasswordLost(username: string, password: string)
    requires Colon in password
    ensures ReadCustomerLine(CustomerLine(username, password)) != Some((username, password))
  {
    var line := CustomerLine(username, password);
    if |JavaSplit(line, [Colon])| == 2 {
      JavaSplitPiecesFree(line, Colon, 1);
    }
  }

  // ---------------------------------------------------------------- loading

  /** The map after `put`ting the entry of every line that reads, in file order (a later line wins). */
  function Loaded<V>(lines: seq<string>, read: string -> Option<(string, V)>): map<string, V> {
    if lines == [] then map[]
    else
      var m := Loaded(lines[..|lines| - 1], read);
      match read(lines[|lines| - 1])
      case None => m
      case Some(e) => m[e.0 := e.1]
  }

  lemma LoadedStep<V>(lines: seq<string>, i: nat, read: string -> Option<(string, V)>)
    requires i < |lines|
    ensures Loaded(lines[..i + 1], read) ==
      match read(lines[i]) case None => Loaded(lines[..i], read) case Some(e) => Loaded(lines[..i], read)[e.0 := e.1]
  {
    assert lines[..i + 1][..i] == lines[..i];
  }

  /** One more line of `customers.txt`, as `loadCustomers` splits it. */
  lemma CustomersStep(lines: seq<string>, i: nat)
    requires i < |lines|
    ensures var parts := JavaSplit(lines[i], [Colon]);
      Loaded(lines[..i + 1], ReadCustomerLine) ==
        if |parts| == 2 then Loaded(lines[..i], ReadCustomerLine)[parts[0] := parts[1]] else Loaded(lines[..i], ReadCustomerLine)
  {
    LoadedStep(lines, i, ReadCustomerLine);
  }

  /** One more line of `profiles.txt`, as `loadProfiles` splits it. */
  lemma ProfilesStep(lines: seq<string>, i: nat)
    requires i < |lines|
    ensures var p := JavaSplitLimit(lines[i], [Colon], 4);
      Loaded(lines[..i + 1], ReadProfileLine) ==
        if |p| == 4 then Loaded(lines[..i], ReadProfileLine)[p[0] := Profile(p[1], p[2], p[3])] else Loaded(lines[..i], ReadProfileLine)
  {
    LoadedStep(lines, i, ReadProfileLine);
  }

  /** The lines a rewrite of the file from `m` holds, in whatever order the map yields them. */
  function FileLines<V>(m: map<string, V>, format: (string, V) -> string): set<string> {
    set u | u in m :: format(u, m[u])
  }

  /**
   * Loading lines that each come from `m` gives a part of `m` that holds
   * every key whose line is present.
   */
  lemma {:induction false} LoadedPart<V>(lines: seq<string>, m: map<string, V>,
                                        read: string -> Option<(string, V)>, format: (string, V) -> string)
    requires forall u :: u in m ==> read(format(u, m[u])) == Some((u, m[u]))
    requires forall k :: 0 <= k < |lines| ==> lines[k] in FileLines(m, format)
    ensures forall u :: u in Loaded(lines, read) ==> u in m && Loaded(lines, read)[u] == m[u]
    ensures forall u :: u in m && format(u, m[u]) in lines ==> u in Loaded(lines, read)
  {
    if lines != [] {
      var init, l := lines[..|lines| - 1], lines[|lines| - 1];
      assert forall k :: 0 <= k < |init| ==> init[k] == lines[k];
      LoadedPart(init, m, read, format);
      assert l in FileLines(m, format);
      var w :| w in m && l == format(w, m[w]);
      assert Loaded(lines, read) == Loaded(init, read)[w := m[w]];
      forall u | u in m && format(u, m[u]) in lines ensures u in Loaded(lines, read) {
        if format(u, m[u]) !in init {
          assert format(u, m[u]) == l;
        }
      }
    }
  }

  /**
   * A file rewritten from `m`, in any order, loads back as `m` when every
   * entry's line reads back as that entry.
   */
  lemma Reload<V>(lines: seq<string>, m: map<string, V>,
                  read: string -> Option<(string, V)>, format: (string, V) -> string)
    requires forall u :: u in m ==> read(format(u, m[u])) == Some((u, m[u]))
    requires (set l | l in lines) == FileLines(m, format)
    ensures Loaded(lines, read) == m
  {
    forall k | 0 <= k < |lines| ensures lines[k] in FileLines(m, format) {
      assert lines[k] in (set l | l in lines);
    }
    LoadedPart(lines, m, read, format);
    forall u | u in m ensures format(u, m[u]) in lines {
      assert format(u, m[u]) in FileLines(m, format);
    }
  }

  /** Rewriting `customers.txt` from the map and loading it gives the same accounts. */
  lemma ReloadCustomers(lines: seq<string>, customers: map<string, string>)
    requires forall u :: u in customers ==> StorableAccount(u, customers[u])
    requires (set l | l in lines) == FileLines(customers, CustomerLine)
    ensures Loaded(lines, ReadCustomerLine) == customers
  {
    forall u | u in customers ensures ReadCustomerLine(CustomerLine(u, customers[u])) == Some((u, customers[u])) {
      CustomerLineRoundTrip(u, customers[u]);
    }
    Reload(lines, customers, ReadCustomerLine, CustomerLine);
  }

  /** Rewriting `profiles.txt` from the map and loading it gives the same profiles. */
  lemma ReloadProfiles(lines: seq<string>, profiles: map<string, Profile>)
    requires forall u :: u in profiles ==> StorableProfile(u, profiles[u])
    requires (set l | l in lines) == FileLines(profiles, ProfileLine)
    ensures Loaded(lines, ReadProfileLine) == profiles
  {
    forall u | u in profiles ensures ReadProfileLine(ProfileLine(u, profiles[u])) == Some((u, profiles[u])) {
      ProfileLineRoundTrip(u, profiles[u]);
    }
    Reload(lines, profiles, ReadProfileLine, ProfileLine);
  }

  /** `saveCustomer` appends a line; loading the longer file adds that account. */
  lemma LoadAppended(lines: seq<string>, username: string, password: string)
    requires StorableAccount(username, password)
    ensures Loaded(lines + [CustomerLine(username, password)], ReadCustomerLine) ==
      Loaded(lines, ReadCustomerLine)[username := password]
  {
    CustomerLineRoundTrip(username, password);
    assert (lines + [CustomerLine(username, password)])[..|lines|] == lines;
  }

  // ---------------------------------------------------------------- logging in

  datatype LoginResult = WelcomeAdmin | WelcomeCustomer(username: string) | InvalidAdmin | InvalidCustomer

  /**
   * `authenticate`: the Admin role has the one fixed login; any other role
   * is a customer, let in when the map holds exactly that password.
   */
  function Authenticate(customers: map<string, string>, role: string, username: string, password: string): (r: LoginResult)
    ensures r == WelcomeAdmin <==> role == "Admin" && username == "admin" && password == "admin123"
    ensures r.WelcomeCustomer? <==> role != "Admin" && username in customers && customers[username] == password
    ensures r.WelcomeCustomer? ==> r.username == username
  {
    if role == "Admin" then
      if username == "admin" && password == "admin123" then WelcomeAdmin else InvalidAdmin
    else if username in customers && customers[username] == password then WelcomeCustomer(username)
    else InvalidCustomer
  }

  // ---------------------------------------------------------------- registering

  datatype RegisterResult = FieldsRequired | PasswordsDiffer | UsernameExists | Created

  /** The checks of the Register button, in the order it makes them. */
  function RegisterCheck(customers: map<string, string>, username: string, password: string, confirm: string): RegisterResult {
    var u := Trim(username);
    if u == [] || password == [] || confirm == [] then FieldsRequired
    else if password != confirm then PasswordsDiffer
    else if u in customers then UsernameExists
    else Created
  }

  /** Registration goes through exactly when all three fields are filled, the passwords agree and the name is new. */
  lemma RegisterAccepts(customers: map<string, string>, username: string, password: string, confirm: string)
    ensures RegisterCheck(customers, username, password, confirm) == Created <==>
      Trim(username) != [] && password != [] && password == confirm && Trim(username) !in customers
    ensures RegisterCheck(customers, username, password, confirm) == UsernameExists ==>
      Trim(username) in customers
  {
  }

  /**
   * A new account can log in at once with the trimmed name and the password;
   * every other account keeps its password and there is exactly one more.
   */
  lemma RegisterThenLogin(customers: map<string, string>, username: string, password: string, confirm: string)
    requires RegisterCheck(customers, username, password, confirm) == Created
    ensures var after := customers[Trim(username) := password];
      && Authenticate(after, "Customer", Trim(username), password) == WelcomeCustomer(Trim(username))
      && |after| == |customers| + 1
      && forall u :: u in customers ==> u in after && after[u] == customers[u]
  {
    NewAccount(customers, Trim(username), password);
  }

  lemma NewAccount(customers: map<string, string>, u: string, password: string)
    requires u !in customers
    ensures var after := customers[u := password];
      && Authenticate(after, "Customer", u, password) == WelcomeCustomer(u)
      && |after| == |customers| + 1
      && forall v :: v in customers ==> v in after && after[v] == customers[v]
  {
    var after := customers[u := password];
    assert after.Keys == customers.Keys + {u};
  }

  // ---------------------------------------------------------------- account settings

  datatype SaveResult = UsernameEmpty | CurrentUserMissing | UsernameTaken | Saved

  /**
   * The checks of `saveChanges`, in its order, for the logged-in `current`
   * and the new name `u` (already trimmed).
   */
  function SaveCheck(customers: map<string, string>, current: string, u: string): SaveResult {
    if u == [] then UsernameEmpty
    else if current !in customers then CurrentUserMissing
    else if u != current && u in customers then UsernameTaken
    else Saved
  }

  /** A blank (trimmed) entry keeps the old value. */
  function KeepBlank(kept: string, entered: string): string {
    if entered == [] then kept else entered
  }

  /** The account map after a successful save: the current entry moves to `u`, its password unless `pw` is blank. */
  function MovedAccount(customers: map<string, string>, current: string, u: string, pw: string): map<string, string>
    requires current in customers
  {
    (customers - {current})[u := KeepBlank(customers[current], pw)]
  }

  /** The profile map after a successful save: the old profile (or blanks) moves to `u`, each non-blank part replaced. */
  function MovedProfile(profiles: map<string, Profile>, current: string, u: string, entered: Profile): map<string, Profile> {
    var p := if current in profiles then profiles[current] else NoProfile;
    (profiles - {current})[u := Profile(KeepBlank(p.first, entered.first), KeepBlank(p.middle, entered.middle), KeepBlank(p.last, entered.last))]
  }

  /**
   * After a save the account answers to the new name with the old password
   * when the new one is blank and the new one otherwise; the old name is
   * gone when it changed and every other account is as it was.
   */
  lemma SaveThenLogin(customers: map<string, string>, current: string, u: string, pw: string)
    requires SaveCheck(customers, current, u) == Saved
    ensures current in customers
    ensures var after := MovedAccount(customers, current, u, pw);
      && Authenticate(after, "Customer", u, if pw == [] then customers[current] else pw) == WelcomeCustomer(u)
      && (u != current ==> current !in after)
      && forall x :: x != current && x != u ==> (x in after <==> x in customers) && (x in after ==> after[x] == customers[x])
  {
  }

  /** A save neither adds nor removes an account. */
  lemma SaveKeepsCount(customers: map<string, string>, current: string, u: string, pw: string)
    requires SaveCheck(customers, current, u) == Saved
    ensures current in customers
    ensures |MovedAccount(customers, current, u, pw)| == |customers|
  {
    var after := MovedAccount(customers, current, u, pw);
    var rest := customers - {current};
    assert |rest| == |customers| - 1 by {
      assert customers.Keys == rest.Keys + {current};
    }
    if u == current {
      assert u !in rest;
    } else {
      assert u !in customers;
    }
  }

  /** After a save the profile sits under the new name; each blank entry kept its old part. */
  lemma SavedProfile(profiles: map<string, Profile>, current: string, u: string, entered: Profile)
    ensures var after := MovedProfile(profiles, current, u, entered);
      var before := if current in profiles then profiles[current] else NoProfile;
      && u in after
      && after[u].first == (if entered.first == [] then before.first else entered.first)
      && after[u].middle == (if entered.middle == [] then before.middle else entered.middle)
      && after[u].last == (if entered.last == [] then before.last else entered.last)
      && (u != current ==> current !in after)
      && forall x :: x != current && x != u ==> (x in after <==> x in profiles) && (x in after ==> after[x] == profiles[x])
  {
  }

  // ---------------------------------------------------------------- the two maps

  /** The static `customers` and `profiles` maps. */
  class AccountStore {
    var customers: map<string, string>
    var profiles: map<string, Profile>

    constructor ()
      ensures customers == map[] && profiles == map[]
    {
      customers := map[];
      profiles := map[];
    }

    /** `loadCustomers`: clear the map, then put every line that splits into two parts. */
    method LoadCustomers(lines: seq<string>)
      modifies this
      ensures customers == Loaded(lines, ReadCustomerLine)
      ensures profiles == old(profiles)
    {
      customers := map[];
      var i := 0;
      while i < |lines|
        invariant 0 <= i <= |lines|
        invariant customers == Loaded(lines[..i], ReadCustomerLine)
        invariant profiles == old(profiles)
      {
        CustomersStep(lines, i);
        var parts := JavaSplit(lines[i], [Colon]);
        if |parts| == 2 {
          customers := customers[parts[0] := parts[1]];
        }
        i := i + 1;
      }
      assert lines[..i] == lines;
    }

    /** `loadProfiles`: clear the map, then put every line that splits into four parts. */
    method LoadProfiles(lines: seq<string>)
      modifies this
      ensures profiles == Loaded(lines, ReadProfileLine)
      ensures customers == old(customers)
    {
      profiles := map[];
      var i := 0;
      while i < |lines|
        invariant 0 <= i <= |lines|
        invariant profiles == Loaded(lines[..i], ReadProfileLine)
        invariant customers == old(customers)
      {
        ProfilesStep(lines, i);
        var p := JavaSplitLimit(lines[i], [Colon], 4);
        if |p| == 4 {
          profiles := profiles[p[0] := Profile(p[1], p[2], p[3])];
        }
        i := i + 1;
      }
      assert lines[..i] == lines;
    }

    /**
     * The Register button: on success the account and its (trimmed) profile
     * are stored under the trimmed name; `appended` is the line added to
     * `customers.txt`, empty when nothing was stored.
     */
    method Register(username: string, password: string, confirm: string, first: string, middle: string, last: string)
      returns (result: RegisterResult, appended: seq<string>)
      modifies this
      ensures result == RegisterCheck(old(customers), username, password, confirm)
      ensures result != Created ==> customers == old(customers) && profiles == old(profiles) && appended == []
      ensures result == Created ==>
        && customers == old(customers)[Trim(username) := password]
        && profiles == old(profiles)[Trim(username) := Profile(Trim(first), Trim(middle), Trim(last))]
        && appended == [CustomerLine(Trim(username), password)]
    {
      var u := Trim(username);
      if u == [] || password == [] || confirm == [] {
        return FieldsRequired, [];
      }
      if password != confirm {
        return PasswordsDiffer, [];
      }
      if u in customers {
        return UsernameExists, [];
      }
      customers := customers[u := password];
      appended := [CustomerLine(u, password)];
      profiles := profiles[u := Profile(Trim(first), Trim(middle), Trim(last))];
      result := Created;
    }

    /**
     * `saveChanges` of the settings dialog for the logged-in `current`: the
     * entries are trimmed; on success the account and the profile move to
     * the new name.
     */
    method SaveChanges(current: string, newUsername: string, newPassword: string, first: string, middle: string, last: string)
      returns (result: SaveResult)
      modifies this
      ensures result == SaveCheck(old(customers), current, Trim(newUsername))
      ensures result != Saved ==> customers == old(customers) && profiles == old(profiles)
      ensures result == Saved ==>
        && current in old(customers)
        && customers == MovedAccount(old(customers), current, Trim(newUsername), Trim(newPassword))
        && profiles == MovedProfile(old(profiles), current, Trim(newUsername), Profile(Trim(first), Trim(middle), Trim(last)))
    {
      var u := Trim(newUsername);
      var pw := Trim(newPassword);
      var f, m, l := Trim(first), Trim(middle), Trim(last);
      if u == [] {
        return UsernameEmpty;
      }
      if current !in customers {
        return CurrentUserMissing;
      }
      if u != current && u in customers {
        return UsernameTaken;
      }
      Move(current, u, pw, Profile(f, m, l));
      result := Saved;
    }

    /** The update `saveChanges` makes once its checks pass, on trimmed entries. */
    method Move(current: string, u: string, pw: string, entered: Profile)
      requires SaveCheck(customers, current, u) == Saved
      modifies this
      ensures current in old(customers)
      ensures customers == MovedAccount(old(customers), current, u, pw)
      ensures profiles == MovedProfile(old(profiles), current, u, entered)
    {
      var effective := if pw == [] then customers[current] else pw;
      customers := customers - {current};
      customers := customers[u := effective];
      var existing := if current in profiles then profiles[current] else NoProfile;
      var f := if entered.first == [] then existing.first else entered.first;
      var m := if entered.middle == [] then existing.middle else entered.middle;
      var l := if entered.last == [] then existing.last else entered.last;
      profiles := profiles - {current};
      profiles := profiles[u := Profile(f, m, l)];
    }
  }
}
