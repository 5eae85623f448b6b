/** src/models/user.ts: a TM1 user. Its groups are a case-and-space-insensitive set, its
    type is inferred from the groups when none is given, the getter reads the type through
    the string enum `UserType`, and the body binds each group under its normalised name. */
module Users {
  import opened Wrappers
  import opened JsValue
  import opened InsensitiveMap
  import opened InsensitiveSet
  import TsEnums
  import Bindings

  // ---------------------------------------------------------------------------
  // UserType

  const UserTypeMembers: seq<(string, string)> :=
    [("User", "0"), ("SecurityAdmin", "1"), ("DataAdmin", "2"), ("Admin", "3"), ("OperationsAdmin", "4")]

  /** `UserType[key]`: a string enum, so there is no mapping back from the codes. */
  function UserTypeOf(key: string): (r: Js)
    ensures r.Str? || r.Undefined?
  {
    TsEnums.StringLookup(UserTypeMembers, key)
  }

  /** User = '0', SecurityAdmin = '1', DataAdmin = '2', Admin = '3', OperationsAdmin = '4'. */
  lemma UserTypeCodes()
    ensures UserTypeOf("User") == Str("0") && UserTypeOf("SecurityAdmin") == Str("1")
    ensures UserTypeOf("DataAdmin") == Str("2") && UserTypeOf("Admin") == Str("3")
    ensures UserTypeOf("OperationsAdmin") == Str("4")
  {
    var ms := UserTypeMembers;
    assert TsEnums.WellformedString(ms);
    TsEnums.StringLookupAt(ms, 0);
    TsEnums.StringLookupAt(ms, 1);
    TsEnums.StringLookupAt(ms, 2);
    TsEnums.StringLookupAt(ms, 3);
    TsEnums.StringLookupAt(ms, 4);
  }

  /** A code is not a key: `UserType['3']` is `undefined`. */
  lemma UserTypeHasNoReverseMapping()
    ensures UserTypeOf("0") == Undefined && UserTypeOf("3") == Undefined
  {
    TsEnums.StringMissing(UserTypeMembers, "0");
    TsEnums.StringMissing(UserTypeMembers, "3");
  }

  // ---------------------------------------------------------------------------
  // Groups and the inferred type

  type Groups = Members<()>

  /** Group names as the set's keys. */
  function GroupKeys(names: seq<string>): (r: seq<Key<()>>)
    ensures |r| == |names| && forall i :: 0 <= i < |names| ==> r[i] == StrKey(names[i])
  {
    seq(|names|, i requires 0 <= i < |names| => StrKey(names[i]))
  }

  /** Only strings are ever added to a user's groups. */
  predicate AllStrings(m: Groups) {
    forall i :: 0 <= i < |m| ==> m[i].StrKey?
  }

  /** The `has` chain of the constructor, on its four answers. */
  function TypeFromGroups(admin: bool, securityAdmin: bool, dataAdmin: bool, operationsAdmin: bool): string {
    if admin then "Admin"
    else if securityAdmin then "SecurityAdmin"
    else if dataAdmin then "DataAdmin"
    else if operationsAdmin then "OperationsAdmin"
    else "User"
  }

  /** The groups the constructor asks about, in the order it asks. */
  const AdminGroups: seq<string> := ["ADMIN", "SecurityAdmin", "DataAdmin", "OperationsAdmin"]

  /** The type the constructor infers from the groups when it is given none. */
  function InferredType(m: Groups): (r: string)
    ensures r in ["Admin", "SecurityAdmin", "DataAdmin", "OperationsAdmin", "User"]
    ensures SetHas(m, StrKey("ADMIN")) ==> r == "Admin"
  {
    TypeFromGroups(SetHas(m, StrKey(AdminGroups[0])), SetHas(m, StrKey(AdminGroups[1])), SetHas(m, StrKey(AdminGroups[2])),
                   SetHas(m, StrKey(AdminGroups[3])))
  }

  /** `if (type) … else …`: a given type is kept unless it is the empty string. */
  function ChosenType(given: Option<string>, m: Groups): (r: string)
    ensures r != ""
    ensures r == InferredType(m) || (given.Some? && r == given.value)
  {
    if given.Some? && given.value != "" then given.value else InferredType(m)
  }

  /** `Groups('${group}')` for each member, in the set's order. */
  function GroupBindings(m: Groups): (r: seq<Js>)
    requires AllStrings(m)
    ensures |r| == |m| && forall i :: 0 <= i < |m| ==> r[i] == Str(Bindings.Segment("Groups", m[i].s))
  {
    seq(|m|, i requires 0 <= i < |m| => Str(Bindings.Segment("Groups", m[i].s)))
  }

  // ---------------------------------------------------------------------------
  // The body

  /** Every key a body can have, in the order it is written. */
  const BodyKeys: seq<string> := ["Name", "FriendlyName", "Type", "Enabled", "Password", "Groups@odata.bind"]

  lemma BodyKeysDistinct()
    ensures JsValue.Distinct(BodyKeys)
  {
  }

  /** `friendlyName ?? name`. */
  function FriendlyNameOr(friendlyName: Js, name: Js): Js {
    if friendlyName.Undefined? || friendlyName.Null? then name else friendlyName
  }

  /** `user.body`: the four base fields, then `Password` when it is truthy, then the group
      bindings when there is a group. Both added keys are new, so each assignment appends. */
  function UserBody(name: Js, friendlyName: Js, typeCode: Js, enabled: Js, password: Js, binds: seq<Js>): (r: Js)
    ensures r.Obj? && |r.fields| == 4 + (if Truthy(password) then 1 else 0) + (if |binds| > 0 then 1 else 0)
  {
    var base := Zip(BodyKeys[..4], [name, FriendlyNameOr(friendlyName, name), typeCode, enabled]);
    var withPassword := if Truthy(password) then base + [(BodyKeys[4], password)] else base;
    Obj(if |binds| > 0 then withPassword + [(BodyKeys[5], Arr(binds))] else withPassword)
  }

  // ---------------------------------------------------------------------------
  // User

  class User {
    var name: Js
    var password: Js
    var groups: CaseAndSpaceInsensitiveSet<()>
    var friendlyName: Js
    var userType: string
    var isActive: Js
    var enabled: Js

    ghost predicate Valid()
      reads this, groups
    {
      groups.Valid() && AllStrings(groups.members)
    }

    /** `new User(name, password, groups, friendlyName, type, isActive, enabled)`, with
        absent groups as the empty list. Each group goes through the set's `add`; the type
        is the given one when it is not empty, else the one the groups imply. */
    constructor (name: Js, password: Js, groups: seq<string>, friendlyName: Js, userType: Option<string>,
                 isActive: Js, enabled: Js)
      ensures Valid() && fresh(this.groups)
      ensures this.name == name && this.password == password && this.friendlyName == friendlyName
      ensures this.isActive == isActive && this.enabled == enabled
      ensures this.groups.members == FromList(GroupKeys(groups))
      ensures this.userType == ChosenType(userType, FromList(GroupKeys(groups)))
    {
      var g := new CaseAndSpaceInsensitiveSet<()>([]);
      AddEach(g, groups);
      var t := ChooseType(g, userType);
      this.name := name;
      this.password := password;
      this.groups := g;
      this.friendlyName := friendlyName;
      this.userType := t;
      this.isActive := isActive;
      this.enabled := enabled;
    }

    /** The `type` getter. */
    method GetType() returns (r: Js)
      ensures r == UserTypeOf(userType)
    {
      r := UserTypeOf(userType);
    }

    /** The `type` setter. */
    method SetType(value: string)
      modifies this
      ensures userType == value
      ensures name == old(name) && groups == old(groups) && password == old(password)
      ensures friendlyName == old(friendlyName) && isActive == old(isActive) && enabled == old(enabled)
    {
      userType := value;
    }

    /** `addGroup(groupName)`: added only when no equivalent group is there. */
    method AddGroup(groupName: string)
      requires Valid()
      modifies groups
      ensures Valid()
      ensures groups.members == SetAdd(old(groups.members), StrKey(groupName))
    {
      var present := groups.Has(StrKey(groupName));
      GroupsStayStrings(groups.members, groupName);
      if !present {
        groups.Add(StrKey(groupName));
      }
    }

    /** `removeGroup(groupName)`: deleted only when an equivalent group is there. */
    method RemoveGroup(groupName: string)
      requires Valid()
      modifies groups
      ensures Valid()
      ensures groups.members == SetDelete(old(groups.members), StrKey(groupName))
    {
      var present := groups.Has(StrKey(groupName));
      GroupsStayStrings(groups.members, groupName);
      if present {
        var _ := groups.Delete(StrKey(groupName));
      } else {
        DeleteAbsent(groups.members, StrKey(groupName));
      }
    }

    /** `user.body`. */
    method ConstructBody() returns (r: Js)
      requires Valid()
      ensures r == UserBody(name, friendlyName, UserTypeOf(userType), enabled, password, GroupBindings(groups.members))
    {
      var typeCode := GetType();
      var size := groups.Size();
      var binds: seq<Js> := [];
      if size > 0 {
        binds := CollectBindings(groups, groups.members);
      }
      r := UserBody(name, friendlyName, typeCode, enabled, password, binds);
    }
  }

  /** `for (const g of groups) this.groups.add(g)` on a set that starts empty. */
  method AddEach(g: CaseAndSpaceInsensitiveSet<()>, groups: seq<string>)
    requires g.members == [] && g.Valid()
    modifies g
    ensures g.Valid() && AllStrings(g.members)
    ensures g.members == FromList(GroupKeys(groups))
  {
    var keys := GroupKeys(groups);
    var i := 0;
    while i < |keys|
      invariant 0 <= i <= |keys|
      invariant g.Valid()
      invariant g.members == FromList(keys[..i]) && AllStrings(g.members)
    {
      assert keys[..i + 1][..i] == keys[..i];
      GroupsStayStrings(g.members, groups[i]);
      g.Add(keys[i]);
      i := i + 1;
    }
    assert keys[..i] == keys;
  }

  /** `if (type) … else …`. */
  method ChooseType(g: CaseAndSpaceInsensitiveSet<()>, userType: Option<string>) returns (t: string)
    ensures t == ChosenType(userType, g.members)
  {
    if userType.Some? && userType.value != "" {
      t := userType.value;
    } else {
      t := Infer(g);
    }
  }

  /** The four `has` calls of the constructor and the type they imply. */
  method Infer(g: CaseAndSpaceInsensitiveSet<()>) returns (t: string)
    ensures t == InferredType(g.members)
  {
    var admin := g.Has(StrKey(AdminGroups[0]));
    var securityAdmin := g.Has(StrKey(AdminGroups[1]));
    var dataAdmin := g.Has(StrKey(AdminGroups[2]));
    var operationsAdmin := g.Has(StrKey(AdminGroups[3]));
    t := TypeFromGroups(admin, securityAdmin, dataAdmin, operationsAdmin);
  }

  /** The `forEach` that pushes one binding per group. */
  method CollectBindings(groups: CaseAndSpaceInsensitiveSet<()>, ghost m: Groups) returns (binds: seq<Js>)
    requires m == groups.members && AllStrings(m)
    ensures binds == GroupBindings(m)
  {
    var calls := groups.ForEach();
    binds := [];
    var i := 0;
    while i < |calls|
      invariant 0 <= i <= |calls|
      invariant |binds| == i && forall j :: 0 <= j < i ==> binds[j] == Str(Bindings.Segment("Groups", m[j].s))
    {
      binds := binds + [Str(Bindings.Segment("Groups", calls[i].0.s))];
      i := i + 1;
    }
  }

  /** `data.Groups?.map(group => group.Name) ?? []`. */
  function GroupNames(v: Js): (r: Result<seq<string>>)
    ensures v.Undefined? || v.Null? ==> r == Ok([])
    ensures !(v.Undefined? || v.Null? || v.Arr?) ==> r == Err(TypeError)
    ensures r.Ok? && v.Arr? ==> |r.value| == |v.items|
    ensures r.Ok? && v.Arr? ==> forall i :: 0 <= i < |v.items| ==> Field(v.items[i], "Name") == Str(r.value[i])
  {
    match v
    case Undefined => Ok([])
    case Null => Ok([])
    case Arr(items) => ItemNames(items)
    case _ => Err(TypeError)
  }

  function ItemNames(items: seq<Js>): (r: Result<seq<string>>)
    ensures r.Ok? ==> |r.value| == |items| && forall i :: 0 <= i < |items| ==> Field(items[i], "Name") == Str(r.value[i])
    ensures (exists i :: 0 <= i < |items| && (items[i].Undefined? || items[i].Null?)) ==> r.Err?
  {
    if items == [] then Ok([])
    else if items[0].Undefined? || items[0].Null? then Err(TypeError)
    else
      var n :- AsString(Field(items[0], "Name"));
      var rest :- ItemNames(items[1..]);
      assert forall i :: 1 <= i < |items| ==> items[i] == items[1..][i - 1];
      Ok([n] + rest)
  }

  /** `if (type)` on the response's `Type`: a string is the type, a falsy value none. */
  function TypeArgument(v: Js): (r: Result<Option<string>>)
    ensures v.Str? ==> r == Ok(Some(v.s))
    ensures !Truthy(v) && !v.Str? ==> r == Ok(None)
  {
    if v.Str? then Ok(Some(v.s)) else if !Truthy(v) then Ok(None) else Err(MalformedResponse)
  }

  /** `User.fromJson(data)`: it fails exactly when `data`, its groups or its type cannot
      be read. */
  method FromJson(data: Js) returns (r: Result<User>)
    ensures data.Undefined? || data.Null? ==> r == Err(TypeError)
    ensures !data.Undefined? && !data.Null? ==>
              (r.Ok? <==> GroupNames(Field(data, "Groups")).Ok? && TypeArgument(Field(data, "Type")).Ok?)
    ensures r.Ok? ==> fresh(r.value) && r.value.Valid() && r.value.name == Field(data, "Name") &&
                      r.value.friendlyName == Field(data, "FriendlyName") && r.value.password == Field(data, "Password")
    ensures r.Ok? ==> r.value.isActive == Field(data, "IsActive") && r.value.enabled == Field(data, "Enabled")
    ensures r.Ok? ==> GroupNames(Field(data, "Groups")).Ok? &&
                      r.value.groups.members == FromList(GroupKeys(GroupNames(Field(data, "Groups")).value))
    ensures r.Ok? ==> TypeArgument(Field(data, "Type")).Ok? &&
                      r.value.userType == ChosenType(TypeArgument(Field(data, "Type")).value, r.value.groups.members)
  {
    if data.Undefined? || data.Null? {
      return Err(TypeError);
    }
    var names := GroupNames(Field(data, "Groups"));
    if names.Err? {
      return Err(names.error);
    }
    var t := TypeArgument(Field(data, "Type"));
    if t.Err? {
      return Err(t.error);
    }
    var u := new User(Field(data, "Name"), Field(data, "Password"), names.value, Field(data, "FriendlyName"), t.value,
                      Field(data, "IsActive"), Field(data, "Enabled"));
    r := Ok(u);
  }

  // ---------------------------------------------------------------------------
  // Properties

  /** Deleting a member that is not there changes nothing. */
  lemma {:induction false} DeleteAbsent(m: Groups, x: Key<()>)
    requires !SetHas(m, x)
    ensures SetDelete(m, x) == m
  {
    if m != [] {
      assert m[0] != NormalizeKey(x);
      DeleteAbsent(m[1..], x);
    }
  }

  /** An inferred type is always one of the enum's keys, so the getter never reads
      `undefined` for it. */
  lemma InferredTypeHasCode(admin: bool, securityAdmin: bool, dataAdmin: bool, operationsAdmin: bool)
    ensures UserTypeOf(TypeFromGroups(admin, securityAdmin, dataAdmin, operationsAdmin)).Str?
  {
    UserTypeCodes();
  }

  /** The inference order: `ADMIN` wins over every other group, and a user in none of the
      four admin groups is a plain user. */
  lemma InferencePriority(admin: bool, securityAdmin: bool, dataAdmin: bool, operationsAdmin: bool)
    ensures admin ==> TypeFromGroups(admin, securityAdmin, dataAdmin, operationsAdmin) == "Admin"
    ensures !admin && securityAdmin ==> TypeFromGroups(admin, securityAdmin, dataAdmin, operationsAdmin) == "SecurityAdmin"
    ensures !admin && !securityAdmin && dataAdmin ==> TypeFromGroups(admin, securityAdmin, dataAdmin, operationsAdmin) == "DataAdmin"
    ensures TypeFromGroups(admin, securityAdmin, dataAdmin, operationsAdmin) == "User" <==>
              !admin && !securityAdmin && !dataAdmin && !operationsAdmin
  {
  }

  /** A type given explicitly wins over the groups, even a type that is not an enum key;
      the getter then reads `undefined`. */
  lemma GivenTypeWins(t: string, m: Groups)
    requires t != ""
    ensures ChosenType(Some(t), m) == t
    ensures t !in ["User", "SecurityAdmin", "DataAdmin", "Admin", "OperationsAdmin"] ==> UserTypeOf(ChosenType(Some(t), m)) == Undefined
  {
    if t !in ["User", "SecurityAdmin", "DataAdmin", "Admin", "OperationsAdmin"] {
      TsEnums.StringMissing(UserTypeMembers, t);
    }
  }

  /** Adding a group twice is adding it once. */
  lemma AddGroupIdempotent(m: Groups, g: string)
    ensures SetAdd(SetAdd(m, StrKey(g)), StrKey(g)) == SetAdd(m, StrKey(g))
  {
  }

  /** Adding or removing a group keeps the members strings. */
  lemma GroupsStayStrings(m: Groups, g: string)
    requires AllStrings(m)
    ensures AllStrings(SetAdd(m, StrKey(g))) && AllStrings(SetDelete(m, StrKey(g)))
  {
    var d := SetDelete(m, StrKey(g));
    forall i | 0 <= i < |d| ensures d[i].StrKey? {
      assert d[i] in m;
    }
  }

  /** The keys of the body: the four base keys always, `Password` exactly when the
      password is truthy, and the bindings exactly when there is a group. */
  lemma UserBodyKeys(name: Js, friendlyName: Js, typeCode: Js, enabled: Js, password: Js, binds: seq<Js>)
    ensures KeysOf(UserBody(name, friendlyName, typeCode, enabled, password, binds)) ==
            ["Name", "FriendlyName", "Type", "Enabled"] + (if Truthy(password) then ["Password"] else []) +
            (if |binds| > 0 then ["Groups@odata.bind"] else [])
  {
  }

  /** Where each key stands in a body: entry `j` is keyed by `BodyKeys[j]` up to the
      password, and the bindings come last. */
  lemma UserBodyLayout(name: Js, friendlyName: Js, typeCode: Js, enabled: Js, password: Js, binds: seq<Js>)
    ensures var fs := UserBody(name, friendlyName, typeCode, enabled, password, binds).fields;
            var p := if Truthy(password) then 5 else 4;
            |fs| == p + (if |binds| > 0 then 1 else 0) &&
            (forall j :: 0 <= j < p ==> fs[j].0 == BodyKeys[j]) &&
            fs[0].1 == name && fs[1].1 == FriendlyNameOr(friendlyName, name) && fs[2].1 == typeCode &&
            fs[3].1 == enabled && (Truthy(password) ==> fs[4].1 == password) &&
            (|binds| > 0 ==> fs[p] == (BodyKeys[5], Arr(binds)))
  {
  }

  /** The four fields every body has: the friendly name falls back to the name only when
      it is `undefined` or `null`, and the other fields are as given. */
  lemma UserBodyBaseFields(name: Js, friendlyName: Js, typeCode: Js, enabled: Js, password: Js, binds: seq<Js>)
    ensures var r := UserBody(name, friendlyName, typeCode, enabled, password, binds);
            Field(r, "Name") == name && Field(r, "Type") == typeCode && Field(r, "Enabled") == enabled &&
            Field(r, "FriendlyName") == (if friendlyName.Undefined? || friendlyName.Null? then name else friendlyName)
  {
    var fs := UserBody(name, friendlyName, typeCode, enabled, password, binds).fields;
    UserBodyLayout(name, friendlyName, typeCode, enabled, password, binds);
    BodyKeysDistinct();
    forall k | 0 <= k < 4 ensures Field(Obj(fs), BodyKeys[k]) == fs[k].1 {
      OrderedMap.IndexOfKeyIs(fs, BodyKeys[k], k);
    }
    assert BodyKeys[0] == "Name" && BodyKeys[1] == "FriendlyName" && BodyKeys[2] == "Type" && BodyKeys[3] == "Enabled";
  }

  /** The password is sent only when it is truthy and the group bindings only when there
      is at least one group, each as given. */
  lemma UserBodyOptionalFields(name: Js, friendlyName: Js, typeCode: Js, enabled: Js, password: Js, binds: seq<Js>)
    ensures var r := UserBody(name, friendlyName, typeCode, enabled, password, binds);
            (Truthy(password) ==> Field(r, "Password") == password) &&
            (|binds| > 0 ==> Field(r, "Groups@odata.bind") == Arr(binds))
  {
    var fs := UserBody(name, friendlyName, typeCode, enabled, password, binds).fields;
    UserBodyLayout(name, friendlyName, typeCode, enabled, password, binds);
    BodyKeysDistinct();
    var p := if Truthy(password) then 5 else 4;
    if Truthy(password) {
      OrderedMap.IndexOfKeyIs(fs, BodyKeys[4], 4);
    }
    if |binds| > 0 {
      OrderedMap.IndexOfKeyIs(fs, BodyKeys[5], p);
    }
    assert BodyKeys[4] == "Password" && BodyKeys[5] == "Groups@odata.bind";
  }

  /** Every binding reads back as the group's normalised name, when that name has no
      quote: the body names the group as the set stores it, lowercased and without
      whitespace. */
  lemma GroupBindingsReadBack(m: Groups, i: int)
    requires AllStrings(m) && 0 <= i < |m| && Bindings.QuoteFree(m[i].s)
    ensures GroupBindings(m)[i].Str?
    ensures Bindings.ParsePath(["Groups"], GroupBindings(m)[i].s) == Some([m[i].s])
  {
    Bindings.SegmentPathRoundTrip("Groups", m[i].s);
  }

  /** A user given any group the set treats as `ADMIN` and no type is an admin, whatever
      its other groups. */
  lemma AdminGroupMakesAdmin(groups: seq<string>, i: int)
    requires 0 <= i < |groups| && Equivalent<()>(StrKey(groups[i]), StrKey(AdminGroups[0]))
    ensures ChosenType(None, FromList(GroupKeys(groups))) == "Admin"
  {
    FromListHas(GroupKeys(groups), i, StrKey(AdminGroups[0]));
  }
}
