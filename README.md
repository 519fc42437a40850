# virtual-ldap, modelled in Dafny

virtual-ldap is a small LDAP server that publishes the staff directory of a
DingTalk or WeCom organisation. It periodically reads the organisation's
departments and users from the provider, turns them into directory
entries, and answers searches, binds and modifications over them:

- each department becomes an `organizationalUnit` below `ou=People` and a
  `groupOfNames` below `ou=Groups`;
- each user becomes an `inetOrgPerson` in the groups of its departments and
  of every department above them.

Configured admins bind directly below the root DN. Persons bind with a
password kept in a credential store: an in-memory table or MySQL. Passwords
are stored as salted SHA-256 (`{SSHA256}`). Custom groups from the
configuration collect persons by mail address.

The model is one module per source file, plus three shared modules:

- `Common` holds the JavaScript string operations the code relies on;
- `Dn` holds DN parsing and ancestry as the protocol library performs them;
- `Entries` holds entry objects and their attribute bags.

Entries are objects whose attributes are updated in place (`Entries.Entry`).
So are the module state of ldap.js (`Ldap.BaseEntryCache`), the providers'
published lists (`Dingtalk.Provider`, `Wecom.Provider`), the in-memory table
(`Memory.Table`) and the MySQL connection (`MySql.Connection`). The loops of
the source are methods with invariants, proved against specification
functions. Department and user records are values. The API, the cache files,
the hash and base64 primitives, randomness and the database driver are
parameters.

Two details of the server follow the code rather than its intent:

- An admin bind lower-cases the DN before reading the `cn`, so only admins
  with lower-case names can bind (`Server.AdminBindNeedsLowerCase`).
- A bind without a stored password falls back to the entry's `userPassword`.
  With the in-memory store, that fallback is written into the stored record
  (`Server.PersonBindOutcome`).

## Model

| member | source | states |
|---|---|---|
| Common.Split | lib/providers/dingtalk.js:35 | `split(c)` gives at least one piece |
| Common.SplitPiecesFree | lib/providers/dingtalk.js:35 | no piece of a split holds the separator |
| Common.SplitJoin | lib/providers/dingtalk.js:35-37 | splitting pieces joined with a separator they lack gives the pieces back |
| Common.JoinSplit | lib/providers/dingtalk.js:35-37 | joining the pieces of a split with the separator gives the string back |
| Common.IndexOf | lib/providers/dingtalk.js:34 | `indexOf(c)`: -1 when absent, otherwise the first position of `c` |
| Common.Lower | lib/server.js:37 | `toLowerCase()` on the ASCII letters: each upper-case ASCII letter becomes its lower-case letter and every other character is kept |
| Common.LowerConcat | lib/server.js:37 | lower-casing distributes over concatenation |
| Common.LowerIdempotent | lib/server.js:37-38 | lower-casing twice is lower-casing once |
| Common.Trim | lib/providers/dingtalk.js:106 | `trim()`: what is left comes from the string and neither starts nor ends with white space |
| Common.TrimStart | lib/providers/dingtalk.js:106 | the leading white space, and only that, is cut |
| Common.TrimEnd | lib/providers/dingtalk.js:106 | the trailing white space, and only that, is cut |
| Common.TrimTrims | lib/providers/dingtalk.js:106 | `trim()` keeps a contiguous piece of the string with only white space outside it and none at its ends |
| Common.TrimmedUnique | lib/providers/dingtalk.js:106 | only one piece of a string fits that description, so it determines `trim()` |
| Common.ReplaceAllRemoves | lib/providers/dingtalk.js:106 | globally replacing a character by text without it leaves no occurrence of the character |
| Common.Decimal | lib/providers/dingtalk.js:116 | a number in decimal is non-empty, with two digits or more from 10 on |
| Common.DecimalInjective | lib/providers/dingtalk.js:114-118 | different numbers have different decimal texts |
| Dn.ParseDN | lib/server.js:37 | the empty string is the empty DN; otherwise one component per ','-separated piece |
| Dn.ParseAll | lib/server.js:37 | each piece is parsed on its own, in order |
| Dn.ParseJoin | lib/utilities/ldap.js:11-13 | joining two non-empty DN strings with ',' concatenates their components |
| Dn.ParseBelow | lib/providers/dingtalk.js:265 | a component without ',' in front of a DN is one more component in front |
| Dn.Parent | lib/server.js:67 | `parent()`: the DN without its first component; the empty DN has none |
| Dn.ParentOfStep | lib/server.js:127 | a proper ancestor is the parent or an ancestor of the parent |
| Dn.ParentOfTransitive | lib/server.js:127 | `parentOf` is transitive |
| Dn.ParentOfPrefix | lib/server.js:210 | a DN with components put in front of `a` lies below `a` |
| Entries.Entry.constructor | lib/utilities/ldap.js:46-53 | an entry has the DN and attributes it was built with |
| Entries.AddOnce | lib/utilities/ldap.js:205-207 | the push-unless-present step: `x` is in the list afterwards, and the list grows only when `x` was absent |
| Entries.AddOnceDistinct | lib/utilities/ldap.js:205-207 | a list without repetitions stays without repetitions |
| Entries.AddAll | lib/utilities/custom_groups.js:32-34 | pushing each element unless present: every element is there afterwards and nothing else is added |
| Entries.AddAllDistinct | lib/utilities/custom_groups.js:32-34 | repeated pushes never repeat an element |
| Entries.AddAllPresent | lib/utilities/custom_groups.js:32-34 | pushing elements that are all present changes nothing |
| Entries.AddAllIdempotent | lib/utilities/custom_groups.js:32-34 | recording the same edges twice is recording them once |
| Entries.GrownReflexive | lib/utilities/ldap.js:204-211 | a bag has grown from itself |
| Entries.GrownTransitive | lib/utilities/ldap.js:204-211 | growing twice is growing |
| Entries.GrownKeeps | lib/utilities/ldap.js:204-211 | growing never loses an edge in `member` or `memberOf` |
| Ldap.MakeDNPair | lib/utilities/ldap.js:11-13 | `makeDN(a, b)` is `a + "," + b` |
| Ldap.BaseDNs | lib/utilities/ldap.js:15-27 | the organization, People and Groups base DNs as they read once joined |
| Ldap.MakeDNJoins | lib/utilities/ldap.js:11-13 | `makeDN` of several parts puts ',' between them |
| Ldap.GroupEntryDN | lib/utilities/ldap.js:29-32 | a group's DN is its own DN followed by the Groups base DN |
| Ldap.OrganizationUnitEntryDN | lib/utilities/ldap.js:34-37 | a unit's or person's DN is its own DN followed by the People base DN |
| Ldap.OrganizationUnitAttributes | lib/utilities/ldap.js:39-55 | the unit's default class list, name and `entryDN`, overridden by the given attributes |
| Ldap.PersonAttributes | lib/utilities/ldap.js:57-84 | the person classes, placeholder password, empty `memberOf` and `entryDN`, overridden by the given attributes |
| Ldap.GroupAttributes | lib/utilities/ldap.js:86-105 | a group's classes, `cn`, `ou`, given `member` list, empty `memberOf` and `entryDN`, overridden by the given attributes |
| Ldap.MakeOrganizationUnitEntry | lib/utilities/ldap.js:39-55 | a fresh entry with the unit's DN and attributes |
| Ldap.MakePersonEntry | lib/utilities/ldap.js:57-84 | a fresh entry with the person's DN and attributes |
| Ldap.MakeGroupEntry | lib/utilities/ldap.js:86-105 | a fresh entry with the group's DN and attributes |
| Ldap.AdminDN | lib/utilities/ldap.js:143 | an admin's DN is `cn=<name>,<root DN>` |
| Ldap.RootDcOfComponent | lib/utilities/ldap.js:163 | for a root DN starting `attr=value,` the `dc` is the trimmed value |
| Ldap.RootDcMissing | lib/utilities/ldap.js:163 | without '=' in the first component there is no `dc` (the source throws) |
| Ldap.AdminShapes | lib/utilities/ldap.js:150-154 | one admin entry per configured admin, in order |
| Ldap.BaseEntryShapes | lib/utilities/ldap.js:156-179 | root, organization, People, Groups, then the admins; none when the root DN has no `dc` |
| Ldap.Shapes | lib/utilities/ldap.js:169-175 | the DN and attributes of each entry, in order |
| Ldap.MakeFixedEntries | lib/utilities/ldap.js:107-138 | fresh root, organization, People and Groups entries |
| Ldap.MakeAdminEntry | lib/utilities/ldap.js:140-148 | a fresh admin entry under the admin's DN |
| Ldap.MakeAdminEntries | lib/utilities/ldap.js:150-154 | fresh admin entries matching `AdminShapes` |
| Ldap.BaseEntryCache.constructor | lib/utilities/ldap.js:5 | nothing is cached at start |
| Ldap.BaseEntryCache.GetBaseEntries | lib/utilities/ldap.js:156-179 | built once and then returned unchanged; the result has the shapes of `BaseEntryShapes` |
| Ldap.FirstAdmin | lib/utilities/ldap.js:182-184 | the first admin whose name equals the user name, if any |
| Ldap.ValidateAdminPassword | lib/utilities/ldap.js:181-190 | true exactly when the first admin of that name has exactly that password |
| Ldap.ValidateAdminPermission | lib/utilities/ldap.js:193-202 | true exactly when the first admin of that name has the permission |
| Ldap.WithMember | lib/utilities/ldap.js:205-207 | the member's DN is in the group's `member` list, added once |
| Ldap.WithMemberOf | lib/utilities/ldap.js:208-210 | the group's DN is in the member's `memberOf` list, added once |
| Ldap.AddMemberToGroup | lib/utilities/ldap.js:204-211 | both lists updated as `WithMember`/`WithMemberOf` say; nothing else changes |
| Ldap.AddMemberIdempotent | lib/utilities/ldap.js:204-211 | adding a member twice is adding it once |
| Ldap.AddMemberNoDuplicates | lib/utilities/ldap.js:204-211 | lists without repetitions stay without repetitions |
| Password.RelIndex | lib/utilities/password.js:7-8 | a negative `subarray` index counts from the end, clamped to the buffer |
| Password.Subarray | lib/utilities/password.js:7-8 | `subarray(start, end)` is the slice between the resolved indices |
| Password.PayloadPieces | lib/utilities/password.js:6-8 | a decoded secret of at least 8 bytes splits into digest and 8-byte salt that concatenate back |
| Password.Hex | lib/utilities/password.js:7 | hex rendering has two digits per byte |
| Password.HexInjective | lib/utilities/password.js:12-15 | comparing hex renderings is comparing the bytes |
| Password.ValidateMeaning | lib/utilities/password.js:3-20 | a `{SSHA256}` secret accepts exactly the inputs whose salted hash is the stored digest; any other secret accepts only itself |
| Password.PrefixCaseSensitive | lib/utilities/password.js:4 | the prefix test is exact: `{ssha256}` is a plain password |
| Password.SaltOf | lib/utilities/password.js:25-30 | the salt is eight bytes, drawn in order |
| Password.StoreUserPassword | lib/utilities/password.js:22-40 | the loop fills the salt; the result is the prefix and base64 of digest then salt |
| Password.RoundTrip | lib/utilities/password.js:3-40 | the stored form of a password validates that password |
| Password.StoredAccepts | lib/utilities/password.js:3-20 | the stored form accepts exactly the inputs with the same salted hash |
| Departments.NormalizeName | lib/providers/dingtalk.js:106 | the cleaned name holds no `/`, and is the trim of the name with " / " made " - " and every other `/` made `&` |
| Departments.NormalizeNameNoSlash | lib/providers/dingtalk.js:106 | a name without `/` is only trimmed |
| Departments.NormalizeNameIdempotent | lib/providers/dingtalk.js:106 | a clean name is left alone |
| Departments.Merge | lib/providers/dingtalk.js:105-108 | each department stored under its id with its name cleaned |
| Departments.MergeLastWins | lib/providers/dingtalk.js:105-108 | the last department with an id is the one stored |
| Departments.MergeKeeps | lib/providers/dingtalk.js:98-108 | an id no department has keeps what the table held |
| Departments.MergeKeyed | lib/providers/dingtalk.js:105-108 | every department sits under its own id |
| Departments.MapOf | lib/providers/dingtalk.js:126-127 | the departments keyed by id; the keys are the ids |
| Departments.MapOfMember | lib/providers/dingtalk.js:126-127 | the department under an id is one of the list |
| Departments.MapOfAscending | lib/providers/dingtalk.js:126-127 | with ascending ids each department is found under its own id |
| Departments.KeysInOrder | lib/providers/dingtalk.js:110 | the keys, each once, in ascending order |
| Departments.ValuesInKeyOrder | lib/providers/dingtalk.js:110 | `Object.values`: one department per key, in ascending id order |
| Departments.PickedInOrder | lib/providers/dingtalk.js:110 | departments picked by ascending keys are in ascending id order |
| Departments.ValuesInKeyOrderIds | lib/providers/dingtalk.js:110 | the ids taken out are exactly the keys |
| Departments.ValuesInKeyOrderAt | lib/providers/dingtalk.js:110 | every department of the table has its place in the list |
| Departments.ValuesInKeyOrderMapOf | lib/providers/dingtalk.js:110-127 | taking the values out and keying them again gives the same table |
| Departments.Candidate | lib/providers/dingtalk.js:113-118 | the k-th name tried: the name, then `name2`, `name3`, … |
| Departments.CandidateInjective | lib/providers/dingtalk.js:113-118 | different attempts try different names |
| Departments.CandidatesBounded | lib/providers/dingtalk.js:114-118 | n taken candidates mean at least n names taken, so the search ends |
| Departments.FirstFree | lib/providers/dingtalk.js:114-118 | the first candidate from the k-th on that is not taken: it is free and every earlier one is taken |
| Departments.Renamed | lib/providers/dingtalk.js:111-121 | the renaming keeps one department per department |
| Departments.FreeName | lib/providers/dingtalk.js:114-118 | the inner loop returns the first candidate not taken, `FirstFree`'s |
| Departments.DedupeNames | lib/providers/dingtalk.js:111-121 | the loop computes `Renamed` |
| Departments.RenamedSnoc | lib/providers/dingtalk.js:111-121 | one department more takes the first candidate not held by those renamed before it |
| Departments.RenamedPrefix | lib/providers/dingtalk.js:111-121 | a department's new name depends only on the departments before it |
| Departments.RenamedAt | lib/providers/dingtalk.js:111-121 | each department keeps id and parent and takes the first candidate name no earlier department holds; that name is free |
| Departments.RenamedKeeps | lib/providers/dingtalk.js:113-119 | a department whose name no earlier department holds keeps it |
| Departments.RenamedDistinct | lib/providers/dingtalk.js:111-121 | after the pass no two departments share a name |
| Departments.RenamedSameLinks | lib/providers/dingtalk.js:111-121 | renaming keeps every id and parent in place |
| Departments.AboveFuel | lib/providers/dingtalk.js:131-134 | the walk up is the same with any sufficient bound |
| Departments.AssignDNs | lib/providers/dingtalk.js:126-136 | each department gets the DN of its walk; None when a walk meets a missing parent (the source throws); the result is `Placed` |
| Departments.PlacedMeaning | lib/providers/dingtalk.js:126-136 | `Placed` is None exactly when some walk meets a missing department, otherwise each department with the DN of its walk |
| Departments.WalkUp | lib/providers/dingtalk.js:128-135 | the loop for one department computes `DnOf` |
| Departments.ChildDN | lib/providers/dingtalk.js:128-135 | a department's DN is `ou=<name>` then its parent's DN, or just its own component at the top |
| Departments.DnOfStep | lib/providers/dingtalk.js:131-134 | one step of the walk |
| Departments.SameLinksTable | lib/providers/dingtalk.js:105-136 | lists with the same links give tables with the same links |
| Departments.SameLinksKeep | lib/providers/dingtalk.js:105-136 | renaming keeps whether walks end and what links exist |
| Departments.WalksEndCloses | lib/providers/dingtalk.js:131-134 | walks that end from the list end from the table |
| Departments.PlacedParentsClosed | lib/providers/dingtalk.js:131-134 | when every department gets a DN, no `parentid` dangles |
| Departments.PlacedTable | lib/providers/dingtalk.js:126-136 | a successful walk keeps links and names, and leaves a table whose walks end |
| Departments.NameAndPlace | lib/providers/dingtalk.js:110-136 | renaming then DN assignment: the names are `Renamed`'s and the DNs `Placed`'s; unique names, same links |
| People.ParseNameMeaning | lib/providers/dingtalk.js:29-41 | the given name and surname put together give the name; with a space the surname has none, otherwise it is one character |
| People.ActiveFirst | lib/providers/dingtalk.js:249-256 | the users whose first-filter verdict is to pass, in order |
| People.FilterActive | lib/providers/dingtalk.js:248-256 | the loop with `allUsersMap` computes `ActiveFirst` |
| People.WithEmail | lib/providers/dingtalk.js:256-261 | the users with an address, in order |
| People.PassesPrefix | lib/providers/dingtalk.js:249-255 | a verdict looks only at the users up to the one judged |
| People.ActiveFirstMembers | lib/providers/dingtalk.js:249-256 | a user is kept exactly when its verdict is to pass |
| People.ActiveFirstFrom | lib/providers/dingtalk.js:249-256 | every kept user comes from the input |
| People.DropLaterUnique | lib/providers/dingtalk.js:249-256 | with later duplicates dropped, no two kept users share a `userid` |
| People.DuplicateDropped | lib/providers/dingtalk.js:250-255 | of two records with one `userid`, only the first can be kept, and only if active |
| People.DuplicateKept | lib/providers/wecom.js:209-215 | under wecom.js the later record is kept whatever its status |
| People.Mail | lib/providers/dingtalk.js:263 | the organisation address when set, else the email, lower-cased |
| People.PersonDNBelow | lib/providers/dingtalk.js:265 | a person's DN is `mail=<mail>` directly below its first department's DN when the address holds no ',' |
| People.MailLower | lib/providers/dingtalk.js:263 | the address is in lower case |
| People.WithEmailUnique | lib/providers/dingtalk.js:256-261 | dropping users keeps `userid`s unique |
| Roster.UnitShapes | lib/providers/dingtalk.js:220-225 | one unit per department, in order |
| Roster.GroupShapes | lib/providers/dingtalk.js:229-235 | one group per department, in order |
| Roster.DepartmentEntries | lib/providers/dingtalk.js:220-235 | a department's unit and group are named after it, carry its id and `entryDN`, and the group starts empty |
| Roster.BuildUnits | lib/providers/dingtalk.js:219-225 | fresh units with the shapes of `UnitShapes` |
| Roster.BuildGroups | lib/providers/dingtalk.js:228-235 | fresh, distinct groups with the shapes of `GroupShapes` |
| Roster.GroupsById | lib/providers/dingtalk.js:233 | `allLDAPGroupsMap`: keyed by the department ids |
| Roster.GroupsByIdAscending | lib/providers/dingtalk.js:233 | with distinct ids each department's own group sits under its id |
| Roster.GroupsByIdInjective | lib/providers/dingtalk.js:233 | no two departments share a group object |
| Roster.LinkOne | lib/providers/dingtalk.js:238-241 | one hierarchy step: the group keys stay the same |
| Roster.LinkAll | lib/providers/dingtalk.js:237-242 | the hierarchy pass: the group keys stay the same |
| Roster.LinkAllGrown | lib/providers/dingtalk.js:237-242 | the pass only appends to membership lists |
| Roster.LinkAllRecords | lib/providers/dingtalk.js:237-242 | every department with a parent ends up linked to the parent's group, both ways |
| Roster.LinkAllLists | lib/providers/dingtalk.js:237-242 | every group keeps both lists |
| Roster.LinkOneMembers | lib/providers/dingtalk.js:240 | one step adds to a `member` list only the child's group, and only in the parent's group |
| Roster.LinkOneMemberOfs | lib/providers/dingtalk.js:240 | one step adds to a `memberOf` list only the parent's group, and only in the child's group |
| Roster.LinkAllMembers | lib/providers/dingtalk.js:237-242 | a `member` list gains exactly the groups of the child departments |
| Roster.LinkAllMemberOfs | lib/providers/dingtalk.js:237-242 | a `memberOf` list gains exactly the parent department's group |
| Roster.LinkToParent | lib/providers/dingtalk.js:238-241 | the heap step does what `LinkOne` says |
| Roster.LinkHierarchy | lib/providers/dingtalk.js:237-242 | the loop in ascending id order does what `LinkAll` says |
| Roster.Lineage | lib/providers/dingtalk.js:286-292 | the ids the walk from a department visits are departments of the table |
| Roster.LineageChain | lib/providers/dingtalk.js:286-292 | the walk starts at the department, and each step goes to the parent |
| Roster.LineageClosed | lib/providers/dingtalk.js:288-292 | a walk that ends misses no ancestor |
| Roster.Walk | lib/providers/dingtalk.js:285-293 | the walks of a user's departments, one after another |
| Roster.WalkMembers | lib/providers/dingtalk.js:285-293 | an id is walked exactly when it is on the walk of one of the departments |
| Roster.WalkReachesAncestors | lib/providers/dingtalk.js:285-293 | with no cycle, enrolment reaches every listed department and every ancestor of one |
| Roster.Joined | lib/providers/dingtalk.js:289 | the person recorded in every walked group: the keys stay the same |
| Roster.JoinedMembers | lib/providers/dingtalk.js:289 | the person is a member afterwards exactly when the group was walked or already listed it |
| Roster.JoinedLists | lib/providers/dingtalk.js:289 | recording keeps both lists of every group |
| Roster.JoinedListsAt | lib/providers/dingtalk.js:289 | recording adds only the person, only in walked groups, and leaves `memberOf` alone |
| Roster.DnsAlong | lib/providers/dingtalk.js:289 | the DNs of the walked groups, in walking order |
| Roster.MemberOfAllMeaning | lib/providers/dingtalk.js:289 | the person's `memberOf` list is the old list, then each walked group not already listed |
| Roster.JoinGroup | lib/providers/dingtalk.js:289 | one `addMemberToGroup` of person and group keeps the enrolment invariant |
| Roster.JoinLineage | lib/providers/dingtalk.js:286-292 | the inner loop records the person along the walk of one department |
| Roster.Enroll | lib/providers/dingtalk.js:285-293 | the person is recorded along the walks of all its departments |
| Roster.PersonShapes | lib/providers/dingtalk.js:262-296 | one person per user, in order |
| Roster.PersonJoins | lib/providers/dingtalk.js:262-296 | the group table after the first n users are enrolled: the keys stay the same |
| Roster.JoinedGrown | lib/providers/dingtalk.js:289 | recording a person only appends to `member` lists |
| Roster.PersonJoinsGrown | lib/providers/dingtalk.js:262-296 | enrolment only appends to `member` lists and keeps both lists |
| Roster.PersonJoinsMembers | lib/providers/dingtalk.js:285-293 | a `member` list gains exactly the persons whose walk passes through the group |
| Roster.PersonJoinsMemberOfs | lib/providers/dingtalk.js:285-293 | enrolment leaves the groups' `memberOf` lists alone |
| Roster.MakeEnrolledPerson | lib/providers/dingtalk.js:262-296 | a fresh person entry, enrolled in the groups of its walk |
| Roster.BuildPersons | lib/providers/dingtalk.js:249-296 | a person per user, in order, each enrolled before the next is built |
| Roster.BuildPerson | lib/providers/dingtalk.js:262-296 | one step of the user mapping keeps the loop invariant |
| Roster.InitialGroups | lib/providers/dingtalk.js:229-235 | every department's group as first built |
| Roster.GroupDns | lib/providers/dingtalk.js:230 | the DN of every department's group |
| Roster.Hierarchy | lib/providers/dingtalk.js:237-242 | the groups after the hierarchy pass |
| Roster.FinalGroups | lib/providers/dingtalk.js:237-296 | the groups once every user is enrolled |
| Roster.FinalGroupShapes | lib/providers/dingtalk.js:229-296 | the published groups, one per department in order |
| Roster.InitialGroupsEmpty | lib/providers/dingtalk.js:230 | a group as first built lists nobody |
| Roster.ChildAmongKeys | lib/providers/dingtalk.js:237-242 | the child groups found are those of the departments whose parent is the group's department |
| Roster.ParentAmongKeys | lib/providers/dingtalk.js:237-242 | the parent group found is that of the department's own parent |
| Roster.FinalMembers | lib/providers/dingtalk.js:237-296 | a published group's `member` list is exactly its child departments' groups and the persons whose walk reaches it |
| Roster.FinalMemberOfs | lib/providers/dingtalk.js:237-242 | a published group's `memberOf` list is exactly its parent department's group |
| Roster.PersonMemberOfs | lib/providers/dingtalk.js:285-293 | a person's `memberOf` list is exactly the groups of the departments its walk reaches |
| Roster.FinalGroupsGrown | lib/providers/dingtalk.js:237-296 | the groups only grow from their first form |
| Roster.BuildGroupTable | lib/providers/dingtalk.js:228-235 | the groups, built and indexed by department id |
| Roster.BuildHierarchy | lib/providers/dingtalk.js:228-242 | the groups, built and indexed, with the hierarchy recorded |
| Roster.BuildPeople | lib/providers/dingtalk.js:249-296 | the persons built and enrolled; the groups hold `FinalGroups` |
| Roster.PeopleEnd | lib/providers/dingtalk.js:249-296 | once every user is mapped, groups and persons are the published ones |
| Roster.BuildDirectory | lib/providers/dingtalk.js:219-298 | groups, units and persons are exactly what `Publishes` describes |
| Roster.BuildGroupsAndPeople | lib/providers/dingtalk.js:228-296 | the group passes and the user mapping, sharing the group table |
| Dingtalk.Table | lib/providers/dingtalk.js:98-108 | the root department `Staff` plus every fetched department, each under its own id |
| Dingtalk.TableEntries | lib/providers/dingtalk.js:98-108 | the root stays `Staff` unless a department has id 1; the last department with an id wins |
| Dingtalk.FetchAllDepartments | lib/providers/dingtalk.js:85-139 | the result is `DepartmentsOf`: the cached list with its DNs; an empty list on API failure; otherwise the id-ordered table renamed with first free candidates and given DNs; None exactly when a walk breaks |
| Dingtalk.ListedMembers | lib/providers/dingtalk.js:185-198 | a listed user is a user of one department, tagged with it, and every such user is listed |
| Dingtalk.FetchAllUsers | lib/providers/dingtalk.js:192-204 | cache as is; null without departments; otherwise every department's users, those without an address dropped |
| Dingtalk.PersonAttrs | lib/providers/dingtalk.js:271-282 | the ten attributes given to `makePersonEntry` |
| Dingtalk.AttrsOfNoMemberOf | lib/providers/dingtalk.js:271-282 | the attributes leave `memberOf` to enrolment |
| Dingtalk.PersonAttrsMeaning | lib/providers/dingtalk.js:263-282 | lower-case address, the remark or else the pinyin, and a split name that puts the name back together |
| Dingtalk.PersonEntryDNMeaning | lib/providers/dingtalk.js:263-265 | the person's DN is its address, then its first department's DN, under People |
| Dingtalk.PersonEntryMeaning | lib/providers/dingtalk.js:262-296 | a published person keeps its attributes and is a member of exactly the groups its walk reaches |
| Dingtalk.SelectedMeaning | lib/providers/dingtalk.js:249-261 | a user is selected exactly when it has an address and is the active first record of its `userid`; `userid`s are unique |
| Dingtalk.Provider.constructor | lib/providers/dingtalk.js:20-23 | all four lists start empty |
| Dingtalk.Provider.GetAllLDAPEntries | lib/providers/dingtalk.js:301-303 | the published entries |
| Dingtalk.Provider.Publish | lib/providers/dingtalk.js:219-298 | the lists are what `Publishes` describes; the entries are groups, then units, then persons |
| Dingtalk.Provider.Store | lib/providers/dingtalk.js:298 | the three lists stored and concatenated |
| Dingtalk.Provider.Reload | lib/providers/dingtalk.js:212-299 | the departments are `DepartmentsOf` the cache and the fetch; a broken walk leaves the lists alone; null users leave empty units and groups; otherwise the selected users are published |
| Wecom.Table | lib/providers/wecom.js:85-89 | every fetched department under its own id, without a root |
| Wecom.TableEntries | lib/providers/wecom.js:85-89 | only fetched ids are in the table, and the last department with an id wins |
| Wecom.FetchAllDepartments | lib/providers/wecom.js:75-122 | the result is `DepartmentsOf`, as for DingTalk, over the table without a root |
| Wecom.AdoptMeaning | lib/providers/wecom.js:142-146 | a member keeps identity and contact fields, takes the business mailbox as address, is active iff status is 1, and is tagged with its department |
| Wecom.ListedMembers | lib/providers/wecom.js:133-156 | a listed user is a member record of one department adopted by it, and every such record is listed |
| Wecom.FetchAllUsers | lib/providers/wecom.js:150-161 | cache as is; null without departments; otherwise every department's users, unfiltered |
| Wecom.PersonAttrs | lib/providers/wecom.js:230-239 | the eight attributes given to `makePersonEntry` |
| Wecom.AttrsOfNoMemberOf | lib/providers/wecom.js:230-239 | the attributes leave `memberOf` to enrolment |
| Wecom.PersonAttrsMeaning | lib/providers/wecom.js:224-239 | lower-case `uid` and address, and a split name that puts the name back together |
| Wecom.PersonEntryMeaning | lib/providers/wecom.js:223-253 | a published person keeps its attributes and is a member of exactly the groups its walk reaches |
| Wecom.SelectedMeaning | lib/providers/wecom.js:207-222 | a user is selected exactly when it has an address and is a later record of its `userid` or an active first record |
| Wecom.InactiveDuplicateSelected | lib/providers/wecom.js:209-215 | an inactive user listed twice is selected once, from its second record |
| Wecom.Provider.constructor | lib/providers/wecom.js:16-19 | all four lists start empty |
| Wecom.Provider.GetAllLDAPEntries | lib/providers/wecom.js:258-260 | the published entries |
| Wecom.Provider.Publish | lib/providers/wecom.js:176-255 | the lists are what `Publishes` describes; the entries are groups, then units, then persons |
| Wecom.Provider.Store | lib/providers/wecom.js:255 | the three lists stored and concatenated |
| Wecom.Provider.Reload | lib/providers/wecom.js:169-256 | the departments are `DepartmentsOf` the cache and the fetch; a broken walk leaves the lists alone; null users leave empty units and groups; otherwise the selected users are published |
| CustomGroups.MatchedDns | lib/utilities/custom_groups.js:28-30 | the DNs of exactly the entries whose `mail` is configured for the group, in order |
| CustomGroups.CustomDns | lib/utilities/custom_groups.js:25 | the full DN of each configured group, in order |
| CustomGroups.CustomAttributesMeaning | lib/utilities/custom_groups.js:25-36 | a built group has `cn` and `ou` the name, the base group as `memberOf`, and as `member` exactly the matching entries' DNs, each once |
| CustomGroups.BaseAttributesMeaning | lib/utilities/custom_groups.js:21-26 | the base group's `member` list is exactly the configured groups' DNs, each once |
| CustomGroups.EnrollKeeps | lib/utilities/custom_groups.js:32-34 | enrolment touches only `memberOf`; the `mail` is unchanged |
| CustomGroups.EnrollMeaning | lib/utilities/custom_groups.js:24-37 | an entry's `memberOf` gains exactly the groups whose addresses include its `mail` |
| CustomGroups.EnrollPresent | lib/utilities/custom_groups.js:32-34 | an entry already listing its groups gains nothing |
| CustomGroups.EnrollIdempotent | lib/utilities/custom_groups.js:24-37 | building the groups again adds no duplicate edge |
| CustomGroups.Matching | lib/utilities/custom_groups.js:28-30 | the filter: the matching entries, in order |
| CustomGroups.MatchingMembers | lib/utilities/custom_groups.js:28-30 | an entry is kept exactly when it matches |
| CustomGroups.MatchingDns | lib/utilities/custom_groups.js:28-30 | the DNs of the kept entries are `MatchedDns` |
| CustomGroups.MatchedDnsSame | lib/utilities/custom_groups.js:28-30 | what a group matches depends only on DNs and addresses |
| CustomGroups.NewCustomGroup | lib/utilities/custom_groups.js:25-26 | a fresh group made a member of the base group |
| CustomGroups.AddMembers | lib/utilities/custom_groups.js:32-34 | each kept entry joins the group, both ways |
| CustomGroups.Join | lib/utilities/custom_groups.js:33 | one `addMemberToGroup` keeps the loop invariant |
| CustomGroups.Enlist | lib/utilities/custom_groups.js:28-34 | every matching provider entry joins the new group |
| CustomGroups.MakeCustomGroup | lib/utilities/custom_groups.js:24-37 | the callback builds the group as `Wanted` says and enrols its members |
| CustomGroups.MakeCustomGroups | lib/utilities/custom_groups.js:24-37 | the groups from position i on, in order, as `Wanted` says |
| CustomGroups.Wanted | lib/utilities/custom_groups.js:24-37 | one wanted group per configured group, in order |
| CustomGroups.GetLDAPCustomGroupEntries | lib/utilities/custom_groups.js:16-40 | nothing without configuration; otherwise the base group, then one group per configured group, with provider entries enrolled |
| CustomGroups.BuiltAfter | lib/utilities/custom_groups.js:24-39 | the groups after the base group are the configured ones, in order |
| Memory.Assign | lib/db/memory.js:8 | every field of `params`, and the fields of `base` it does not name |
| Memory.UidKey | lib/db/memory.js:12 | the key is the uid string, or `undefined` when there is none |
| Memory.Updated | lib/db/memory.js:7-9 | only the uid's record changes; it gains `params` and keeps the fields `params` does not name |
| Memory.Inserted | lib/db/memory.js:11-13 | `params` itself is stored under its uid; no other key changes |
| Memory.UpdateIdempotent | lib/db/memory.js:7-9 | updating twice with the same fields is updating once |
| Memory.Table.constructor | lib/db/memory.js:1 | the table starts empty |
| Memory.Table.DbSelect | lib/db/memory.js:3-5 | the record at the uid, absent when there is none |
| Memory.Table.DbUpdate | lib/db/memory.js:7-9 | the table becomes `Updated` |
| Memory.Table.DbInsert | lib/db/memory.js:11-13 | the table becomes `Inserted` |
| Memory.IndexKey | lib/db/memory.js:4 | the index below the length that the key writes in decimal, if any |
| Memory.ShadowedRead | lib/db/memory.js:3-5 | reading a key off the table-name string is never a record; it is undefined exactly for keys the string lacks |
| Memory.ShadowedGet | lib/db/memory.js:3-5 | a lookup as written gives the default record for every uid the name string does not answer |
| Memory.ShadowedForgets | lib/db/memory.js:3-13 | as written, `alice` always reads back a null password, whatever was saved |
| Db.DefaultRecord | lib/db/db.js:20-23 | the default record holds `userid` and a null password, so its password is not truthy |
| Db.RecordFor | lib/db/db.js:13-24 | the stored record when there is one, otherwise the default |
| Db.Saved | lib/db/db.js:27-34 | an update when the user has a record, otherwise an insert of `{uid}` with the data |
| Db.GetDBRecordForUserId | lib/db/db.js:13-24 | returns `RecordFor` the table |
| Db.SaveDBRecordForUserId | lib/db/db.js:27-34 | the table becomes `Saved` |
| Db.SaveThenGet | lib/db/db.js:13-34 | after a save, reading back gives every saved field and keeps the fields not named |
| Db.SaveKeepsOthers | lib/db/db.js:27-34 | a save touches no other user's record |
| Db.SaveElsewhere | lib/db/db.js:32 | data naming another uid is inserted there, and the user still reads the default |
| MySql.Keys | lib/db/mysql.js:26 | `Object.keys`: the keys in order |
| MySql.ValuesOf | lib/db/mysql.js:27 | the values in key order |
| MySql.Bindings | lib/db/mysql.js:28 | `k=?` for each key, in order |
| MySql.Marks | lib/db/mysql.js:49 | one `?` per column |
| MySql.BindingsCount | lib/db/mysql.js:28 | each binding of a plain key holds one placeholder |
| MySql.UpdateQuery | lib/db/mysql.js:32-44 | the SET values, then the condition values |
| MySql.InsertQuery | lib/db/mysql.js:46-51 | the insert binds the values in key order |
| MySql.SelectInStep | lib/db/mysql.js:25-30 | one placeholder per bound value |
| MySql.UpdateInStep | lib/db/mysql.js:32-44 | one placeholder per bound value, with or without conditions |
| MySql.InsertInStep | lib/db/mysql.js:46-51 | one placeholder per value, and the columns are the keys in value order |
| MySql.MarksCount | lib/db/mysql.js:49 | the `?` list holds one placeholder per column |
| MySql.PutAbsent | lib/db/db.js:32 | setting a property the object lacks appends it |
| MySql.AssignAppends | lib/db/db.js:32 | `Object.assign` with properties none of which is present appends them in order |
| MySql.SaveStatementBinds | lib/db/db.js:27-33 | over MySQL a save of data without `uid` updates binding the data then the uid, or inserts binding the uid then the data, one placeholder per value |
| MySql.DeleteAsWritten | lib/db/mysql.js:53-64 | as written: throws exactly when conditions are given; otherwise deletes every row |
| MySql.DeleteOneUserThrows | lib/db/mysql.js:56-58 | deleting one user's row throws |
| MySql.DeleteQuery | lib/db/mysql.js:53-64 | corrected: the condition values come from the condition keys |
| MySql.DeleteInStep | lib/db/mysql.js:53-64 | corrected: one placeholder per value, agreeing with the code where it does not throw |
| MySql.Connection.constructor | lib/db/mysql.js:7-8 | not connected, no pool |
| MySql.Connection.Connect | lib/db/mysql.js:10-17 | the pool is created on the first call only |
| MySql.Connection.DbQuery | lib/db/mysql.js:19-23 | connects, then returns what the driver returns for the statement |
| Server.Canon | lib/server.js:37-38 | a DN lower-cased and parsed; empty exactly for the empty string |
| Server.EqualsDNEquivalence | lib/server.js:36-40 | `equalsDN` is reflexive, symmetric and transitive |
| Server.EqualsDNIgnoresCase | lib/server.js:36-40 | `equalsDN` ignores the case of ASCII letters |
| Server.CanonJoin | lib/server.js:37 | joining with ',' joins the canonical forms |
| Server.CanonSingle | lib/server.js:37 | a DN string without ',' is one component |
| Server.AdminDNParent | lib/server.js:67 | an admin's DN is one component below the root DN |
| Server.OrganizationBelowRoot | lib/utilities/ldap.js:15-17 | the organization base lies one component below the root |
| Server.Authorize | lib/server.js:50-72 | proceeds exactly for a search of the bind DN itself or a bind DN directly below the root; throws for the empty bind DN unless the request is a search of the empty DN |
| Server.AdminAuthorized | lib/server.js:66-69 | an admin bound under its DN may do anything |
| Server.PersonConfined | lib/server.js:59-71 | a person may search its own entry and nothing else, and may not modify |
| Server.RootDse | lib/server.js:77-87 | the root DSE advertises the root DN as naming context |
| Server.DseResponse | lib/server.js:89-98 | the DSE is sent exactly for a base search of the empty DN with `(objectclass=*)` |
| Server.ScopeMeaning | lib/server.js:122-132 | `one` is one component below, `sub` any suffix; `base` and `one` lie within `sub` and exclude each other |
| Server.SubtreeNested | lib/server.js:126-128 | a subtree of an entry lies within its ancestors' subtrees |
| Server.Selected | lib/server.js:140-145 | exactly the entries in scope and matched by the filter; nothing for an unknown scope |
| Server.SelectedConcat | lib/server.js:136-145 | filtering a concatenation keeps the order of the parts |
| Server.Search | lib/server.js:117-150 | for a known scope: a throw exactly when no base entries are cached and the root DN has no `dc` component; otherwise the base entries (cached, or built and kept), the provider entries and the custom-group entries (the base group, then one per group, with members enrolled on the provider entries) are filtered in that order; an unknown scope sends nothing and changes nothing |
| Server.PersonMatch | lib/server.js:42-48 | the first person entry whose DN equals the requested one |
| Server.DefaultPersonIsPerson | lib/server.js:43-45 | a person built with the default classes is found by the person filter |
| Server.UidOf | lib/server.js:215 | the `uid` string used as a key |
| Server.CommonName | lib/server.js:202 | the `cn` value of the first component; none (a throw) otherwise |
| Server.Fallback | lib/server.js:216-219 | the entry's `userPassword` when it is a string |
| Server.Compared | lib/server.js:216-219 | the stored record, with a falsy password replaced by the entry's |
| Server.AdminBindVerdict | lib/server.js:200-209 | proceeds exactly when the `cn` names an admin with that password; throws without a `cn` |
| Server.PersonBindOutcome | lib/server.js:210-232 | no matching person gives invalid credentials and no write; only a matched person's record can change |
| Server.BindOutcome | lib/server.js:197-236 | admins directly below the root, persons below the organization; any other DN lacks rights |
| Server.Bind | lib/server.js:197-236 | the verdict and the new table are `BindOutcome` |
| Server.BindPerson | lib/server.js:210-232 | the verdict and the new table are `PersonBindOutcome` |
| Server.CheckOutcome | lib/server.js:213-226 | checking a matched person's password changes no other user's record |
| Server.CheckPassword | lib/server.js:213-226 | the verdict and the new table are `CheckOutcome` |
| Server.CanonAdminDN | lib/utilities/ldap.js:143 | an admin DN is `cn=<name>` above the root DN's components |
| Server.AdminBind | lib/server.js:200-209 | an admin with a lower-case name binds under its DN exactly with its password |
| Server.CanonLowerCased | lib/server.js:198 | every component value of a canonical DN is lower case |
| Server.AdminBindNeedsLowerCase | lib/server.js:198-203 | a successful admin bind matched an admin whose name is lower case |
| Server.PersonBind | lib/server.js:212-224 | a person with a truthy stored password binds exactly with what that password accepts; the table is unchanged |
| Server.PersonBindFallback | lib/server.js:216-224 | without a stored password the entry's `userPassword` decides and is written into the stored record |
| Server.StepOf | lib/server.js:169-191 | only `replace` changes matter; each saves one field, never `uid` |
| Server.ModifyOutcome | lib/server.js:152-195 | refused requests write nothing; what a permitted request writes is `ChangesOutcome`'s |
| Server.ChangesOutcome | lib/server.js:164-192 | a target that names no person succeeds without a write; only a matched person's changes write |
| Server.Modify | lib/server.js:152-195 | the verdict and the new table are `ModifyOutcome` |
| Server.ModifyPerson | lib/server.js:164-192 | the verdict and the new table are `ChangesOutcome` |
| Server.ApplyChanges | lib/server.js:169-191 | the loop over the changes computes `ApplyAll` |
| Server.ModifyPermitted | lib/server.js:164-192 | a permitted modify applies the changes to the matched person, or writes nothing |
| Server.ApplyAllKeepsOthers | lib/server.js:169-191 | the changes write only under the person's uid |
| Server.ModifyKeepsOthers | lib/server.js:164-192 | a modify changes no other user's record |
| Server.ChangesKeepOthers | lib/server.js:164-192 | the handler's changes leave every other user's record as it was |
| Server.ModifyNeedsPermission | lib/server.js:158-162 | without the permission: insufficient rights and no write |
| Server.OnePasswordChange | lib/server.js:173-182 | a password is saved as given when already hashed, otherwise hashed |
| Server.OtpSecretVerbatim | lib/server.js:184-190 | an otp secret is stored verbatim |
| Server.PasswordChangeThenPersonBind | lib/server.js:173-182 | after a plain password is stored, the person binds with it |
| Server.PasswordChangeThenBind | lib/server.js:152-236 | after a permitted modify sets a plain password, the modify succeeds and the person binds with it |

## Left out

- API access, tokens and HTTP (`ddGet`, `weComGet`, `getToken`) are left out. The fetched lists are parameters: `fetched` is the department list, or None for a failed call. `usersOf` and `membersOf` give each department's members.
- The JSON cache files are not part of this model (`lib/utilities/cache.js`). A cached list is a parameter, and saving is left out. A cached department list is required to be in ascending id order, because the program itself wrote it from `Object.values` (lib/providers/dingtalk.js:110 and 123).
- DingTalk's user paging is modelled as one page per department. `fetchDepartmentUsers` (lib/providers/dingtalk.js:174-183) never advances `offset`: while `hasMore` holds, it fetches the first page again, so the loop never ends. The non-terminating loop is not modelled; each department contributes one page.
- Pinyin transliteration is the parameter `pinyinOf`. The random placeholder password and the salt bytes are parameters too (`randomOf`, `draw`).
- Cron reloads, `setupProvider`, the server's listen call and logging are left out. So is the routing of requests to handlers by the protocol library. Each handler is modelled directly, and the search handler is for DNs below the root.
- The `cn=Subschema` handler is left out (lib/server.js:103-114). It sends one constant entry.
- The protocol library's filter evaluation is left out: a filter is its text plus a predicate. Its DN parser is modelled only for the escape-free form: split on ',', first '=', and trim.
- Server.Authorize: the protocol library's default anonymous bind DN is not modelled. The bind DN is a parameter.
- Server.Selected: entries are compared through `Canon` of their DN string. For the `one` scope the source calls `parent()` on each entry's DN (lib/server.js:123-124), which throws for a DN with no components; that happens only for an entry built from an empty root DN. The model does not send such an entry instead of throwing.
- Common.Lower: `toLowerCase()` is modelled on the ASCII letters only. Full Unicode case mapping is not, and it can change a string's length. This reaches the DN comparison (lib/server.js:37-38) and the `mail` and `uid` values (lib/providers/dingtalk.js:263, lib/providers/wecom.js:224 and 231).
- People.ParseName: `substr`/`substring` count UTF-16 code units (lib/providers/dingtalk.js:32-33, lib/providers/wecom.js:28-29). The model counts characters, so a name starting with a character outside the basic plane is split differently.
- Dingtalk.Table, Wecom.Table and Departments.DedupeNames: JavaScript objects used as dictionaries (lib/providers/dingtalk.js:112-119, lib/providers/wecom.js:96-100, the `allUsersMap` at lib/providers/dingtalk.js:251-252 and lib/providers/wecom.js:210-211, and the store in lib/db/memory.js:4, 8 and 12) are modelled as maps. Keys such as `__proto__` or `constructor` that collide with the object prototype are not modelled. In the source a department named `constructor` is renamed `constructor2`, and a user whose `userid` is `constructor` is taken as already seen.
- Departments.ValuesInKeyOrder: `Object.values` is modelled as ascending id order, which holds for ids that are array indices (below 2^32-1) (lib/providers/dingtalk.js:110, lib/providers/wecom.js:91). Larger or non-numeric ids follow insertion order, which is not modelled.
- Departments.AssignDNs: a `parentid` cycle makes the source's walk loop forever (lib/providers/dingtalk.js:131, lib/providers/wecom.js:114). The model requires every walk to end (`WalksEnd`), and a cycle is not modelled.
- Dingtalk.FetchAllUsers and Wecom.FetchAllUsers (and their DepartmentUsers and Adopt): a failed per-department user fetch makes `users.userlist` throw (lib/providers/dingtalk.js:181, lib/providers/wecom.js:140). The model takes the member lists as given and does not model that throw.
- Dn.ParseRdn: a component without '=' is accepted here, where the protocol library's parser throws. A department name holding ',' therefore makes the source's search throw when it parses entry DNs (lib/server.js:141), and the model does not.
- Db: the credential functions are modelled over the in-memory table (Memory.Table) only. The MySQL backend is modelled by the statements it issues (MySql), not as a store.
- Server.Fallback: a `userPassword` that is not a string is kept as null, and validation then throws. An `otpsecret` replace without a value saves null where the source saves `undefined`.
- Server.PersonBindOutcome: the in-memory store hands out its stored object, so the fallback password is written into the table. The model writes it only when the user has a record, and only here. The MySQL backend returns a copy, which the model does not distinguish.
- MySql.Connection.DbQuery: the driver, the pool and promises are the parameter `run`. The `async` connect is modelled as completing before the query.
- Concurrency between overlapping requests and reloads is not modelled: each handler runs to completion.
- Memory.Table: the table is modelled as memory.js intends it, a map from uid to record. The shadowing defect is modelled separately (see Findings).

## Findings

| source | as written | input that shows it | evidently intended | confidence | as-written member | corrected member |
|---|---|---|---|---|---|---|
| lib/db/mysql.js:58 | `dbDelete` maps over `fields`, which is not defined in it | any call with conditions, e.g. `{uid: "alice"}` | read the values of `cfields`, as `dbUpdate` does | high, not executed | MySql.DeleteOneUserThrows | MySql.DeleteInStep |
| lib/db/memory.js:3-13 | each function's `table` parameter hides the module's table, and the credential code passes the table name | a save for `alice`, then a read for `alice` | store and read records in the module's table | high, not executed | Memory.ShadowedForgets | Db.SaveThenGet |
