/** Role names and the refinement order on them. */
module Roles {
  import opened Common
  import opened Strings

  /** Tab, line feed, vertical tab, form feed, carriage return, space and delete. */
  const INVALID_CHARACTERS: string := "\t\n\U{0B}\U{0C}\r \U{7F}"

  predicate IsStrictSubroleOf(left: string, right: string) {
    |left| > |right| && left[|right|] == '/' && right <= left
  }

  predicate ContainsDoubleSlash(s: string) {
    exists i :: 0 <= i < |s| - 1 && s[i] == '/' && s[i + 1] == '/'
  }

  predicate IsValidComponent(c: string) {
    && c != "." && c != ".." && c != "*"
    && !(c != "" && c[0] == '-')
    && Avoids(c, INVALID_CHARACTERS)
  }

  predicate IsValidRole(role: string) {
    role == "*" ||
    (&& !(role != "" && role[0] == '/')
     && !(role != "" && role[|role| - 1] == '/')
     && !ContainsDoubleSlash(role)
     && var components := Tokenize(role, "/");
        && components != []
        && forall i :: 0 <= i < |components| ==> IsValidComponent(components[i]))
  }

  /** The `CHECK` on components never fails: tokenizing yields no empty one. */
  lemma ComponentsAreNonEmpty(role: string)
    ensures forall i :: 0 <= i < |Tokenize(role, "/")| ==> Tokenize(role, "/")[i] != ""
  {
    TokensAreClean(role, "/", 0);
  }

  /** From `o` on there is something, and every slash stands between two other characters. */
  ghost predicate SlashesSeparate(s: string, o: nat) {
    && o < |s| && s[o] != '/' && s[|s| - 1] != '/'
    && forall i :: o <= i < |s| - 1 && s[i] == '/' ==> s[i + 1] != '/'
  }

  lemma SlashesStep(s: string, o: nat)
    requires o < |s| && s[o] != '/'
    ensures var end := Find(s, "/", o, true);
            SlashesSeparate(s, o) <==> end == |s| || SlashesSeparate(s, end + 1)
  {
    var end := Find(s, "/", o, true);
    if end < |s| && SlashesSeparate(s, o) {
      assert s[end] == '/' && end < |s| - 1;
    }
    if end < |s| && SlashesSeparate(s, end + 1) {
      forall i | o <= i < |s| - 1 && s[i] == '/' ensures s[i + 1] != '/' {
        assert i >= end;
      }
    }
    if end == |s| {
      assert s[|s| - 1] !in "/";
    }
  }

  ghost predicate NoneIsEmpty(pieces: seq<string>) {
    forall k :: 0 <= k < |pieces| ==> pieces[k] != ""
  }

  /** No piece between slashes is empty exactly when the slashes separate, and then
      tokenizing is splitting. */
  lemma {:induction false} PiecesAreTokens(s: string, o: nat)
    requires o <= |s|
    ensures NoneIsEmpty(SplitFrom(s, "/", o, None)) <==> SlashesSeparate(s, o)
    ensures SlashesSeparate(s, o) ==> TokenizeFrom(s, "/", o) == SplitFrom(s, "/", o, None)
    decreases |s| - o
  {
    hide SplitFrom, TokenizeFrom, SlashesSeparate;
    var end := Find(s, "/", o, true);
    SplitFromUnfolds(s, "/", o, None);
    if o == |s| || s[o] == '/' {
      StartsBadly(s, o);
      assert SplitFrom(s, "/", o, None)[0] == "";
    } else {
      SlashesStep(s, o);
      TokenStep(s, o);
      if end < |s| {
        PiecesAreTokens(s, end + 1);
        var rest := SplitFrom(s, "/", end + 1, None);
        assert SplitFrom(s, "/", o, None) == [s[o..end]] + rest;
        PrependNonEmpty(s[o..end], rest);
      }
    }
  }

  lemma PrependNonEmpty(piece: string, rest: seq<string>)
    requires piece != ""
    ensures NoneIsEmpty([piece] + rest) <==> NoneIsEmpty(rest)
  {
    assert forall k :: 0 <= k < |rest| ==> ([piece] + rest)[k + 1] == rest[k];
    if NoneIsEmpty([piece] + rest) {
      forall k | 0 <= k < |rest| ensures rest[k] != "" {
        assert ([piece] + rest)[k + 1] != "";
      }
    }
  }

  lemma StartsBadly(s: string, o: nat)
    requires o <= |s| && (o == |s| || s[o] == '/')
    ensures !SlashesSeparate(s, o) && Find(s, "/", o, true) == o
  {
  }

  lemma TokenStep(s: string, o: nat)
    requires o < |s| && s[o] != '/'
    ensures var end := Find(s, "/", o, true);
            if end == |s| then TokenizeFrom(s, "/", o) == [s[o..]]
            else
              SlashesSeparate(s, end + 1) ==>
                TokenizeFrom(s, "/", o) == [s[o..end]] + TokenizeFrom(s, "/", end + 1)
  {
    var end := Find(s, "/", o, true);
    assert Find(s, "/", o, false) == o;
    if end < |s| && SlashesSeparate(s, end + 1) {
      assert Find(s, "/", end, false) == end + 1 == Find(s, "/", end + 1, false);
    }
  }

  /** Neither a dot, two dots nor a star, not starting with a dash, and without
      white space and the delete character. */
  predicate IsPlainName(c: string) {
    && c != "" && c != "." && c != ".." && c != "*" && c[0] != '-'
    && forall i :: 0 <= i < |c| ==> !(9 <= c[i] as int <= 13) && c[i] as int != 32 && c[i] as int != 127
  }

  lemma ComponentMeans(c: string)
    requires c != ""
    ensures IsValidComponent(c) <==> IsPlainName(c)
  {
    var bad := INVALID_CHARACTERS;
    assert |bad| == 7 && bad[0] as int == 9 && bad[1] as int == 10 && bad[2] as int == 11 && bad[3] as int == 12
           && bad[4] as int == 13 && bad[5] as int == 32 && bad[6] as int == 127;
    forall i | 0 <= i < |c|
      ensures c[i] in bad <==> 9 <= c[i] as int <= 13 || c[i] as int == 32 || c[i] as int == 127
    {
      var n := c[i] as int;
      if 9 <= n <= 13 {
        assert c[i] == bad[n - 9];
      }
    }
  }

  /** A role is valid exactly when it is the star or all pieces between its slashes
      are plain names. */
  lemma ValidRoleMeans(role: string)
    ensures IsValidRole(role) <==>
            role == "*" || forall k :: 0 <= k < |Split(role, "/", None)| ==> IsPlainName(Split(role, "/", None)[k])
  {
    hide SplitFrom, TokenizeFrom, IsValidComponent, IsPlainName;
    forall k | 0 <= k < |Split(role, "/", None)|
      ensures IsPlainName(Split(role, "/", None)[k]) <==>
              Split(role, "/", None)[k] != "" && IsValidComponent(Split(role, "/", None)[k])
    {
      PlainMeans(Split(role, "/", None)[k]);
    }
    PiecesAreTokens(role, 0);
    assert SlashesSeparate(role, 0) <==>
           role != "" && role[0] != '/' && role[|role| - 1] != '/' && !ContainsDoubleSlash(role);
    var pieces := Split(role, "/", None);
    if SlashesSeparate(role, 0) {
      assert Tokenize(role, "/") == pieces;
      SplitFromUnfolds(role, "/", 0, None);
    } else {
      NoTokens();
      var k :| 0 <= k < |pieces| && pieces[k] == "";
    }
  }

  lemma PlainMeans(c: string)
    ensures IsPlainName(c) <==> c != "" && IsValidComponent(c)
  {
    if c != "" {
      ComponentMeans(c);
    }
  }

  lemma NoTokens()
    ensures Tokenize("", "/") == []
  {
  }

  /** A strict subrole is the role, a slash and more. */
  lemma SubroleMeans(left: string, right: string)
    ensures IsStrictSubroleOf(left, right) <==> exists rest :: left == right + "/" + rest
  {
    if IsStrictSubroleOf(left, right) {
      var rest := left[|right| + 1..];
      assert left == right + "/" + rest;
    }
  }

  lemma SubroleTransitive(a: string, b: string, c: string)
    requires IsStrictSubroleOf(a, b) && IsStrictSubroleOf(b, c)
    ensures IsStrictSubroleOf(a, c)
  {
  }
}

/** `Resources::validate`, on a resource whose value union has been decoded. */
module Validation {
  import opened Common
  import opened Strings
  import opened Values
  import opened ResourceModel
  import opened Roles

  predicate IsReserved(r: Resource) {
    r.reservations != []
  }

  predicate IsUnreserved(r: Resource) {
    r.reservations == []
  }

  function ReservationRole(r: Resource): string
    requires IsReserved(r)
  {
    RoleOf(r.reservations[|r.reservations| - 1])
  }

  predicate IsReservedFor(r: Resource, role: string) {
    IsReserved(r) && ReservationRole(r) == role
  }

  predicate IsDynamicallyReserved(r: Resource) {
    IsReserved(r) && KindOf(r.reservations[|r.reservations| - 1]) == DYNAMIC
  }

  /** `Resource.role` has default `*`. */
  function RoleField(r: Resource): string {
    if r.role.Some? then r.role.value else "*"
  }

  function PrincipalOf(r: ReservationInfo): string {
    if r.principal.Some? then r.principal.value else ""
  }

  function LabelsOf(r: ReservationInfo): set<Label> {
    if r.labels.Some? then r.labels.value else {}
  }

  predicate ValidDisk(r: Resource) {
    r.disk.Some? ==>
      && r.name == "disk"
      && (r.disk.value.source.Some? ==> r.disk.value.source.value.kind != UNKNOWN_SOURCE)
  }

  /** The pre-reservation-refinement format: no `reservations`. */
  predicate ValidRolePair(r: Resource) {
    && IsValidRole(RoleField(r))
    && (r.reservation.Some? ==>
          && r.reservation.value.kind.None?
          && r.reservation.value.role.None?
          && RoleField(r) != "*")
  }

  predicate ValidReservation(r: ReservationInfo) {
    r.kind.Some? && r.role.Some? && IsValidRole(r.role.value) && r.role.value != "*"
  }

  /** Every reservation after the first is no static one, and refines the one before. */
  predicate CorrectlyRefined(rs: seq<ReservationInfo>) {
    forall i :: 1 <= i < |rs| ==> KindOf(rs[i]) != STATIC && IsStrictSubroleOf(RoleOf(rs[i]), RoleOf(rs[i - 1]))
  }

  /** With one reservation the old fields may be set too, if they agree with it. */
  predicate OldFieldsAgree(r: Resource)
    requires |r.reservations| == 1
  {
    var res := r.reservations[0];
    && (r.role.Some? ==> r.role.value == RoleOf(res))
    && match KindOf(res)
       case STATIC => r.reservation.None?
       case DYNAMIC =>
         && r.role.Some? == r.reservation.Some?
         && (r.reservation.Some? ==>
               && PrincipalOf(r.reservation.value) == PrincipalOf(res)
               && LabelsOf(r.reservation.value) == LabelsOf(res))
       case UNKNOWN => false
  }

  predicate ValidStack(r: Resource) {
    && (forall i :: 0 <= i < |r.reservations| ==> ValidReservation(r.reservations[i]))
    && CorrectlyRefined(r.reservations)
    && if |r.reservations| == 1 then OldFieldsAgree(r) else r.role.None? && r.reservation.None?
  }

  predicate IsValid(r: Resource) {
    && r.name != ""
    && WellFormedValue(r.value)
    && ValidDisk(r)
    && (if r.reservations == [] then ValidRolePair(r) else ValidStack(r))
    && (r.shared ==> r.name == "disk" && IsPersistentVolume(r))
  }

  predicate AllValid(rs: seq<Resource>) {
    forall i :: 0 <= i < |rs| ==> IsValid(rs[i])
  }

  predicate InPostFormat(r: Resource) {
    r.role.None? && r.reservation.None?
  }

  predicate SourceComplete(r: Resource) {
    r.disk.Some? && r.disk.value.source.Some? ==> SourceMatchesType(r.disk.value.source.value)
  }

  /** What a caller may hand to the pool operations: a validated resource in the
      post-reservation-refinement format, with the sub-message its source names. */
  predicate Usable(r: Resource) {
    IsValid(r) && InPostFormat(r) && SourceComplete(r)
  }

  lemma UsableIsValid(r: Resource)
    requires Usable(r)
    ensures IsValid(r)
  {
  }

  lemma UsableIsWellFormed(r: Resource)
    requires Usable(r)
    ensures WellFormed(r)
  {
    forall i | 0 <= i < |r.reservations| ensures HasTypeAndRole(r.reservations[i]) {
      assert ValidReservation(r.reservations[i]);
    }
  }

  /** In a valid stack every reservation's role is strictly below every earlier one's. */
  lemma {:induction false} StackDescends(rs: seq<ReservationInfo>, i: nat, j: nat)
    requires CorrectlyRefined(rs) && i < j < |rs|
    ensures IsStrictSubroleOf(RoleOf(rs[j]), RoleOf(rs[i]))
    decreases j
  {
    assert IsStrictSubroleOf(RoleOf(rs[j]), RoleOf(rs[j - 1]));
    if i < j - 1 {
      StackDescends(rs, i, j - 1);
      SubroleTransitive(RoleOf(rs[j]), RoleOf(rs[j - 1]), RoleOf(rs[i]));
    }
  }

  // ---------------------------------------------------------------------
  // The stripped forms used by the operations
  // ---------------------------------------------------------------------

  function Pop(r: Resource): Resource
    requires IsReserved(r)
  {
    r.(reservations := r.reservations[..|r.reservations| - 1])
  }

  /** Remove persistence and volume, and with them a disk that has no source. */
  function StripDisk(r: Resource): Resource {
    if r.disk.None? then r
    else if r.disk.value.source.Some? then r.(disk := Some(r.disk.value.(persistence := None, volume := None)))
    else r.(disk := None)
  }

  function StripVolume(r: Resource): Resource {
    StripDisk(r).(shared := false)
  }

  /** Validation refuses a reservation of unknown type only when it is the single
      one, so a stack may hold one that comes to light when it is popped. */
  predicate ExposesUnknown(r: Resource) {
    |r.reservations| == 2 && KindOf(r.reservations[0]) == UNKNOWN
  }

  lemma StarIsValidRole()
    ensures IsValidRole("*")
  {
  }

  /** Removing the last reservation of a valid resource leaves a valid one exactly
      unless that exposes a reservation of unknown type. */
  lemma PopIsUsable(r: Resource)
    requires Usable(r) && IsReserved(r)
    ensures Usable(Pop(r)) <==> !ExposesUnknown(r)
  {
    StarIsValidRole();
    var p := Pop(r);
    forall i | 0 <= i < |p.reservations| ensures ValidReservation(p.reservations[i]) {
      assert p.reservations[i] == r.reservations[i];
      assert ValidReservation(r.reservations[i]);
    }
    forall i | 1 <= i < |p.reservations|
      ensures KindOf(p.reservations[i]) != STATIC
              && IsStrictSubroleOf(RoleOf(p.reservations[i]), RoleOf(p.reservations[i - 1]))
    {
      assert p.reservations[i] == r.reservations[i] && p.reservations[i - 1] == r.reservations[i - 1];
    }
    if |p.reservations| == 1 {
      assert p.reservations[0] == r.reservations[0];
    }
  }

  function Reservation(kind: ReservationType, role: string): ReservationInfo {
    ReservationInfo(Some(kind), Some(role), None, None)
  }

  function Cpus(milli: nat, reservations: seq<ReservationInfo>): Resource {
    Resource("cpus", Scalar(milli), None, None, None, reservations, None, false, None, false)
  }

  /** A stack that validation accepts, and refuses once it is popped. */
  lemma UnknownIsExposed(milli: nat)
    ensures var r := Cpus(milli, [Reservation(UNKNOWN, "a"), Reservation(DYNAMIC, "a/b")]);
            Usable(r) && !IsValid(Pop(r))
  {
    NestedRolesAreValid();
    var r := Cpus(milli, [Reservation(UNKNOWN, "a"), Reservation(DYNAMIC, "a/b")]);
    assert Usable(r);
    PopIsUsable(r);
  }

  lemma NestedRolesAreValid()
    ensures IsValidRole("a") && IsValidRole("a/b") && IsStrictSubroleOf("a/b", "a")
  {
    hide IsValidRole, Split;
    SplitJoin('/', ["a"]);
    SplitJoin('/', ["a", "b"]);
    assert ["a", "b"][1..] == ["b"];
    assert Join("/", ["a", "b"]) == "a" + "/" + "b" == "a/b";
    ValidRoleMeans("a");
    ValidRoleMeans("a/b");
  }

  lemma StripVolumeIsUsable(r: Resource)
    requires Usable(r)
    ensures Usable(StripVolume(r)) && !IsPersistentVolume(StripVolume(r))
  {
    var s := StripVolume(r);
    assert s.reservations == r.reservations && s.value == r.value;
    if |r.reservations| == 1 {
      assert OldFieldsAgree(s) == OldFieldsAgree(r);
    }
  }
}
