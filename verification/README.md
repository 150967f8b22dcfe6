# Verified model of the DANM utilities

A Dafny model of three programs of the danm-utils repository, with proofs:

- **Policer** compiles network policies and endpoint records into iptables rules and installs them in the network
  namespace of a Pod. The main theorem says what this means for a packet: the verdict of the installed tables is the
  verdict of the policies.
- **Cleaner** releases the addresses of endpoints whose Pod is gone. The main theorems are exactly when no interleaving
  of workers, failures and lost replies leaks an address, and that the periodic pass only hands over endpoints of Pods
  that are dead at that moment, even when it decides from its cache, and, unless a request fails, all those of Pods
  that are dead when it begins.
- **showalloc** lists the addresses of a block. The main theorems are the round trips of its 32-bit address
  arithmetic and the exact contents of its listings.

`dafny verify dfyconfig.toml` checks everything.

## Layout

| file | content |
|---|---|
| `Strings.dfy`, `PolTypes.dfy` | text helpers; records, constants and bucket keys |
| `PolicySet.dfy`, `EndpointSet.dfy` | the two indexes, with the scans they agree with |
| `RuleSet.dfy` | from peers to rules |
| `PolicyMeaning.dfy`, `PolicyLaws.dfy` | what policies mean for a packet, without buckets or rules; laws of that meaning |
| `FieldMeaning.dfy` | the same meaning once more, on the fields of the records and with literal texts |
| `RuleArguments.dfy`, `PacketFilter.dfy` | argument lists and their parser; tables, first match, jumps and returns |
| `Provisioner.dfy` | the tables as mutable objects and the provisioning sequence |
| `ChainEffects.dfy`, `InstalledTables.dfy`, `Verdicts.dfy` | the closed form of a run, its verdicts |
| `RepeatedRuns.dfy` | any number of runs, their verdicts and when they converge |
| `RunSafety.dfy` | intermediate states and failing calls |
| `Recovery.dfy` | tables with any history, and when one more run repairs them |
| `PolicyControl.dfy`, `Isolation.dfy` | handling a Pod end to end, and its consequences |
| `SpelledOut.dfy` | the end-to-end results in those words, with the literal names and rules of the tables |
| `ReleaseHandlers.dfy`, `CleanerProtocol.dfy`, `Cleaner.dfy` | address ownership; the release protocol as a state machine; the Cleaner's code on a cluster that changes between its calls |
| `AddressArithmetic.dfy`, `AllocWalk.dfy` | showalloc |

## How things are modelled

- Iterating a Go map is an arbitrary choice at every step. What must not depend on it is stated of sets of records
  and rules, or of buckets that no order can change.
- A table keeps each rule as its argument list, as iptables does, and packets are matched by parsing the list. A packet
  gives its protocol, addresses and ports as sets of texts that name them, so nothing is assumed on how iptables reads
  an address, a port name or a port range.
- Each table carries the numbers of the calls that fail, a log of the calls made and a trace of all its states.
  `Provisioner` proves which calls a run makes; the theorems about tables are about such series of calls.
- A nil port or protocol, which stops the program, is a `None` result whose exact condition is part of the contracts.
- In the Cleaner, everybody else may act between any two calls of a worker (`Cluster.Interfere`). The numbers of the
  requests that fail are an input (`Cluster.faults`), as are those of the failing ones that take effect nevertheless
  (`Cluster.lost`). Look-ups of Pods are logged with the moment, the request's number and the answer. Everything that happens is a step of the state machine in
  `CleanerProtocol`, so its theorems hold of every state the code passes through.

## What is assumed

- UIDs identify policies and endpoint records (`PoliciesIdentified`, `EndpointsIdentified`), as the API server
  guarantees; contracts that need it say so, and it is never a precondition of the operations.
- For the protocol: Pod UIDs and endpoint record names are not used twice, a live Pod's namespace and name are its own,
  an endpoint is recorded together with the allocation of its addresses and for a Pod that is alive, the CNI plugin
  frees what it took and removes the record in one step, and the Pod lister is current. These are the guards and effects
  of the steps in `CleanerProtocol.EventEnabled` and `CleanerProtocol.ApplyEvent`.
- A failing call on a table changes nothing (`Provisioner.Apply`); the Cleaner's failing calls may take effect.
- When the library flattens a label selector into a map, the labels of the map are what the selector selects upstream
  (`PolTypes.Flattens`). What upstream selectors mean is `PolTypes.MatchesUpstream`. Contracts that need it say so.
- Which store holds an address is independent of DANM's test whether it allocated it, of which nothing is assumed. That
  nothing leaks needs a hypothesis, `CleanerProtocol.Safe`: the leases taken for an endpoint are held by the stores the
  release code picks, unless it picks none for one of its addresses. `CleanerProtocol.NoLeakExactly` shows that this is
  needed. A successful release means the address is no longer allocated in the store it was released to.
- The literal for "no address" (`NONE_ALLOC_TYPE`) belongs to a DANM library that is not part of this model, and is
  taken to be `none`.

## Where the code and its documentation differ

The model follows the code.

- Labels are compared as concatenated key-value texts (`PolTypes.KeysMeetExactly`, `PolTypes.AmbiguousLabelsMeet`).
- Any one matching label selects. The guide's selectors work as upstream (policer_user_guide.md, line 47), where all
  labels must match: the two agree exactly for selectors of no more than one label. A selector that the library does
  not flatten, such as one that asks for a key whatever its value, selects nobody
  (`PolicyLaws.AppliesAsDocumentedExactly`, `PolicyLaws.PodChosenAsDocumentedExactly`, `PolicyLaws.OneLabelSelects`,
  `PolicyLaws.UnflattenedSelectsNobody`).
- The guide says the selectors of a peer restrict each other (line 62). A selector that selects nobody is ignored
  instead, one made of expressions or not flattened is passed over, and an empty Pod selector alone, which upstream selects every Pod,
  picks nobody (`PolicyLaws.JoinIsDocumentedExactly`, `PolicyLaws.JoinPicksTooMany`, `PolicyLaws.JoinPicksTooFew`). An
  absent Pod selector is the same record as an empty one, and is read as upstream where one is required.
- A numeric port is read as no port (`PolicyLaws.PortRestrictsExactly`, `PolicyLaws.NumericPortIsNoPort`).
- Sections after the first are not read, which loses packets exactly when the first does not cover them
  (`PolicyLaws.LaterSectionsExactly`, `PolicyLaws.SecondSectionIsLost`), and a section without peers whitelists nobody
  instead of everybody (`PolicyLaws.FirstSectionExactly`).
- When a direction gains its first rule after the first run, or loses its last, running again does not install what a
  fresh run would (`RepeatedRuns.RunsConvergeExactly`, `RepeatedRuns.RunsVerdict`, `RepeatedRuns.EmptinessMatters`).
- A run that fails to place the jump or a default rule before the REJECT is not repaired by running again
  (`Recovery.RecoversExactly`, `Recovery.OneFailureStays`).
- If the chains cannot be created, nothing is closed (`PolicyControl.AbortedRun`).
- An endpoint of which an address has no owner, such as an absent second one that DANM disowns, is never deleted by a
  worker (`CleanerProtocol.DeletedExactly`, `CleanerProtocol.OwnerlessRecordStays`,
  `CleanerProtocol.AbsentAddressKeepsRecord`).
- An address held by Calico that DANM takes for its own is leaked (`CleanerProtocol.MisroutedLeaks`).

## Model

| member | source | states |
|---|---|---|
| `PolicyControl.AddPod` | pkg/polctrl/polctrl.go:125-154 | Decides, with exact conditions on the policy list and the five endpoint listings themselves, between another node, no policy for the Pod, no record with the Pod's UID in any listing, a nil port or protocol, no namespace, a failing creation of a chain the policies need, and provisioning, which is certain when no call fails; the endpoints are those of the first listing that holds one of the Pod. Leaves every table of other namespaces alone. In the Pod's own untouched namespace a fault-free run gives each packet the policies' verdict, no intermediate state rejects a permitted packet, and with failing calls a closed chain accepts only permitted packets. A table with any history stays orderly, and a run without further failures enforces the policies in it if it is ready. |
| `PolicyControl.ChainNeededExactly` | pkg/provisioner/iptables/iptables.go:130-138 | A chain gets rules, and so is created, exactly when the policies whitelist some packet for it. |
| `PolicyControl.CreationFailsExactly` | pkg/provisioner/iptables/iptables.go:114-128 | When the creation of chains fails, in terms of the policies and the numbers of the failing calls alone. |
| `PolicyControl.RerunEnforces` | pkg/provisioner/iptables/iptables.go:104-174 | A run without failures on a table with any history enforces the policies if no REJECT in it precedes what the run needs in front, and no jump is there that it does not need. |
| `PolicyControl.RunEnforces` | pkg/provisioner/iptables/iptables.go:104-111 | End-to-end meaning: after a fault-free run on a fresh namespace, an INPUT or OUTPUT packet is accepted exactly when it is loopback, known connection, outgoing DNS, or whitelisted by an applicable policy's peer, endpoint address and port; FORWARD accepts nothing. |
| `FieldMeaning.MeaningOnFields` | pkg/netruleset/netruleset.go:16-147 | The meaning that all verdicts are compared with is, for every packet, the one read off the fields: key and value texts of labels, network names with their types, address texts that are neither empty nor `none` up to the slash, and ports given as text. |
| `FieldMeaning.FailsOnFields` | pkg/netruleset/netruleset.go:99-147 | The run stops exactly when, in a policy for the Pod, the first section of a direction lacks a port or protocol and a peer of it uses an endpoint with an address. |
| `SpelledOut.EnforcedOnFields` | pkg/provisioner/iptables/iptables.go:13-63 | A table that enforces the policies decides INPUT, OUTPUT and FORWARD as the fields of the records say. |
| `SpelledOut.FreshOnFields` | pkg/provisioner/iptables/iptables.go:104-174 | So does the table of a fresh namespace after a fault-free run of any rule set compiled from the records. |
| `SpelledOut.RulesNameAddresses` | pkg/netruleset/netruleset.go:54-59 | Every compiled rule of a family names the host part of an endpoint's text of that family, which is neither empty nor `none`. |
| `SpelledOut.UsedEndpointsHaveRules` | pkg/netruleset/netruleset.go:50-60 | Every endpoint that a policy for the Pod uses and whose text of the family is neither has a rule with its host part, for each port of the section or for all. |
| `SpelledOut.FamilyWithoutAddresses` | pkg/netruleset/netruleset.go:54-59 | When no endpoint has an address of a family, its two chains have no rules, and the fresh table accepts just loopback, known connections and outgoing DNS. |
| `SpelledOut.BuiltInChains` | pkg/provisioner/iptables/iptables.go:13-63 | INPUT, OUTPUT and FORWARD after a fault-free run on a fresh namespace, argument by argument: the jump, if there is something to jump to, the defaults and REJECT. |
| `SpelledOut.OwnChains` | pkg/provisioner/iptables/iptables.go:156-189 | Our own chains, by their literal names: absent without rules, otherwise the argument lists of the rules, each once, and RETURN at the end. |
| `Isolation.IsolationByLabels` | pkg/polctrl/polctrl.go:130-153 | The same meaning in terms of labels and named networks, when keys are unambiguous: any one label shared selects. |
| `Isolation.IsolationAsDocumented` | policer_user_guide.md:47-62 | Policies written plainly (selectors flattened to at most one label, a first section that names peers and covers the others, soundly joined peers, ports as text) with unambiguous keys are enforced as documented: selectors mean what they do upstream and restrict each other, sections and policies add up, ports are the declared ones. |
| `Isolation.CompilationsAgree` | pkg/polset/polset.go:53-62 | Whatever order maps are iterated in, two rule sets compiled from the same records give every packet the same verdict. |
| `Isolation.MorePoliciesAcceptMore` | policer_user_guide.md:47 | Policies are additive: adding policies never turns an accepted packet of an isolated Pod into a rejected one. |
| `Isolation.MorePeersAcceptMore` | pkg/netruleset/netruleset.go:41-62 | Adding peers to the first section of a policy never turns an accepted packet into a rejected one. |
| `Isolation.LastRunDecides` | pkg/provisioner/iptables/iptables.go:130-174 | After any runs of which, in each direction, none had rules or the first and the last had, the table enforces the policies of the last run. |
| `PolicyControl.CompiledMeaning` | pkg/netruleset/netruleset.go:16-36 | Any rule set compiled from records only whitelists, uses the family's chain names, and matches exactly the packets the policies allow. |
| `PolicyControl.RunNeverHinders` | pkg/provisioner/iptables/iptables.go:104-174 | No state a table goes through during a run rejects a packet the policies permit. |
| `PolicyControl.FaultyRunRestricts` | pkg/provisioner/iptables/iptables.go:156-174 | Whatever calls fail, a chain that holds its REJECT accepts only permitted packets, and one that does not accepts everything. |
| `PolicyControl.AbortedRun` | pkg/provisioner/iptables/iptables.go:104-109 | A run that fails to create its chains leaves a fresh namespace accepting everything. |
| `PolicyControl.FindEndpoints` | pkg/polctrl/polctrl.go:136-143 | No endpoints are found exactly when each of the five listings is unreadable or holds no record with the Pod's UID; otherwise the endpoints are those of a listing that holds one and before which no other does. |
| `PolicyControl.ProvisionNamespace` | pkg/provisioner/iptables/iptables.go:79-112 | Only the namespace named by the rule set is entered; it stops exactly when one of the calls that create chains fails; what it makes of its tables, untouched or not. |
| `PolicySet.SortPoliciesIntoBuckets` | pkg/polset/polset.go:29-48 | Every bucket equals a scan of the policy list: each policy once per label that concatenates to the key, selector-less ones under the default key, unreadable ones nowhere, in list order and independent of label order. |
| `PolicySet.FilterPoliciesWithoutDupes` | pkg/polset/polset.go:66-76 | The result and the UID cache are those of appending the first policy of each new UID. |
| `PolicySet.WithoutDupesCollects` | pkg/polset/polset.go:66-76 | Weeding duplicates keeps UIDs distinct, loses no UID and adds no other policy. |
| `PolicySet.FilterApplicablePolicies` | pkg/polset/polset.go:50-64 | Duplicate-free by UID: every policy under a label of the Pod or under the default key is represented, and nothing else. |
| `PolicySet.VisitedIsSelected` | pkg/polset/polset.go:29-64 | The lookup visits exactly the readable policies whose selector is empty or meets the Pod's labels in a bucket. |
| `PolicySet.ApplicablePolicies` | pkg/polset/polset.go:29-76 | Index and lookup together: one policy of every UID that a scan selects, and nothing else. |
| `PolicySet.ApplicableIsScan` | pkg/polset/polset.go:50-76 | With UIDs identifying policies the applicable set is exactly the scan's, whatever the order of visits; it is empty only if no policy applies. |
| `PolTypes.KeysMeetExactly` | pkg/polset/polset.go:42-44 | Comparing concatenated keys agrees with sharing a label exactly when no two different pairs concatenate alike, or a label is shared anyway. |
| `PolTypes.AmbiguousLabelsMeet` | pkg/polset/polset.go:43 | A concrete pair of label maps without a common label that share a bucket. |
| `PolTypes.AnyLabelIsAllExactly` | pkg/polset/polset.go:53-57 | Sharing any one label is, for every labelling, matching all of them exactly when the selector has no more than one. |
| `PolTypes.LabelKeyIsNotDefault` | types/poltypes/poltypes.go:10-11 | No label bucket is the bucket of policies that select every Pod. |
| `PolTypes.NetworkKeyInjective` | pkg/depset/depset.go:33-36 | Network bucket keys decode uniquely into name and type, an absent type being DanmNet, for names without upper-case letters and types that start with one. |
| `SpelledOut.SelectorWithoutType` | pkg/netruleset/netruleset.go:83-97 | A network selector without a type meets exactly the endpoints of that network whose type is absent or DanmNet. |
| `EndpointSet.SortDeps` | pkg/depset/depset.go:24-50 | Label buckets, network buckets and the Pod's own endpoints equal scans of the list, whatever order labels are visited in. |
| `EndpointSet.FileUnderLabels` | pkg/depset/depset.go:38-47 | One endpoint is appended exactly to the buckets its labels name and that do not hold its UID yet, with the caches kept in step. |
| `EndpointSet.LabelBucketMembers` | pkg/depset/depset.go:38-47 | A label bucket holds only endpoints with a label of that key, one of every such UID, and no UID twice. |
| `EndpointSet.LabelBucketIsFilter` | pkg/depset/depset.go:38-47 | For a list without repeated UIDs a label bucket is the order-preserving filter of the list. |
| `EndpointSet.NetworkBucketsPartition` | pkg/depset/depset.go:33-37 | The network buckets partition the list: each record is in its own bucket as often as in the list, and in no other. |
| `EndpointSet.OwnEndpointsMembers` | pkg/depset/depset.go:30-32 | The Pod's endpoints are the order-preserving filter of the list by Pod UID. |
| `EndpointSet.OwnEndpointsFirst` | pkg/depset/depset.go:30-32 | The first of the Pod's endpoints, whose namespace is entered, is the first record of the list with the Pod's UID. |
| `RuleSet.FilterDepsByPodSelector` | pkg/netruleset/netruleset.go:66-81 | Selected are exactly the endpoints in the buckets of the selector's pairs; nobody for an empty or unreadable selector. |
| `RuleSet.FilterDepsByNetworkSelector` | pkg/netruleset/netruleset.go:83-97 | Selected are exactly the endpoints in the buckets of the named networks. |
| `RuleSet.IntersectDepSets` | pkg/netruleset/netruleset.go:99-119 | An empty list imposes no restriction; otherwise the members of the first whose UID is in the second. |
| `RuleSet.IntersectionIsJoin` | pkg/netruleset/netruleset.go:99-119 | With UIDs identifying records, the join by UID is the intersection of the two selections. |
| `RuleSet.SelectEndpoints` | pkg/netruleset/netruleset.go:47-49 | The endpoints of a peer are the join of its two selections. |
| `RuleSet.NewIngressNetRules` | pkg/netruleset/netruleset.go:121-133 | One rule per port, or one without ports; stops exactly when some port or protocol is nil. |
| `RuleSet.NewEgressNetRules` | pkg/netruleset/netruleset.go:135-147 | The same for the destination side. |
| `RuleSet.NetRulesAreAddressRules` | pkg/netruleset/netruleset.go:121-147 | As a set, the rules of an address are one per port, and expansion stops exactly when a port or protocol is nil. |
| `RuleSet.HostOfAddress` | pkg/netruleset/netruleset.go:124 | The host part drops a prefix length and is the whole text without one. |
| `RuleSet.ExpandEndpoints` | pkg/netruleset/netruleset.go:50-60 | Each endpoint contributes once although listed repeatedly, to each family it has an address of; stops exactly when an addressed endpoint meets an undefined port. |
| `RuleSet.ParsePolicyRules` | pkg/netruleset/netruleset.go:39-64 | The rules of both families are exactly those of the peers' endpoints and ports. |
| `RuleSet.NewNetRuleSet` | pkg/netruleset/netruleset.go:16-37 | The four chains hold exactly the rules of the first sections of the policies; stops exactly when a used section has an undefined port; the namespace is that of the first own endpoint. |
| `PolicyMeaning.AddressRulesMeaning` | pkg/netruleset/netruleset.go:121-147 | Some rule of an address matches a packet exactly when the packet is at that address and one of the ports allows it. |
| `PolicyMeaning.PeerSelectionRefinesJoin` | pkg/netruleset/netruleset.go:47-60 | Selecting through the index picks exactly the endpoints of the naive join over the list. |
| `PolicyMeaning.CompiledRulesMeaning` | pkg/netruleset/netruleset.go:16-64 | Some compiled rule matches a packet exactly when some applicable policy whitelists it. |
| `PolicyMeaning.CompilationFailure` | pkg/netruleset/netruleset.go:129 | Compilation stops at a nil pointer exactly when an applicable policy's first section has an undefined port and picks an addressed endpoint. |
| `PolicyLaws.ReadingsAgree` | pkg/netruleset/netruleset.go:78 | With unambiguous keys, lying in the bucket of a label or network is sharing that label or being on that network. |
| `PolicyLaws.AppliesAsDocumentedExactly` | pkg/polset/polset.go:32-57 | A policy applies to the Pods its selector selects upstream exactly when the library flattens the selector to no more than one label, or it contradicts itself; otherwise to more Pods, or, not flattened, to none. |
| `PolicyLaws.PodChosenAsDocumentedExactly` | pkg/netruleset/netruleset.go:66-81 | A peer selector chooses the endpoints it selects upstream exactly when it has plain labels and is flattened to one label, or is not flattened and contradicts itself. |
| `PolicyLaws.OneLabelSelects` | pkg/netruleset/netruleset.go:77-79 | A concrete selector of two labels that selects a Pod and an endpoint with only one of them. |
| `PolicyLaws.UnflattenedSelectsNobody` | pkg/netruleset/netruleset.go:72-76 | A concrete selector, not flattened, that upstream selects a Pod and here neither a Pod nor an endpoint. |
| `PolicyLaws.JoinIsDocumentedExactly` | pkg/netruleset/netruleset.go:66-104 | The selectors of a peer are joined as the guide says (policer_user_guide.md, line 62) exactly when the Pod selector is not an empty one alone, is not passed over, for its lack of plain labels or because it is not flattened, where it would make a difference, and neither selection is void beside one that is not. |
| `PolicyLaws.JoinPicksTooMany` | pkg/netruleset/netruleset.go:69-104 | Concrete peers that let an endpoint of another label through, as nobody has the label, it is written as an expression, or the selector is not flattened. |
| `PolicyLaws.JoinPicksTooFew` | pkg/netruleset/netruleset.go:69-76 | Concrete peers, an expression alone, an empty selector or one not flattened, that pick nobody and should pick somebody. |
| `PolicyLaws.JoinOfBothSelections` | pkg/netruleset/netruleset.go:47-49 | When both selections through the index hold somebody, the endpoints used for a peer are exactly those of the list that carry a selected label and are on a selected network. |
| `PolicyLaws.PortRestrictsExactly` | pkg/netruleset/netruleset.go:129 | A rule is restricted to the port its policy declares, in decimal or by name, exactly when that is written as text. |
| `PolicyLaws.PortIsDocumentedExactly` | pkg/netruleset/netruleset.go:121-147 | A rule matches the packets its port is documented to match exactly when port and protocol are given as text. |
| `PolicyLaws.NumericPortIsNoPort` | pkg/netruleset/netruleset.go:129 | Ports 80 and 443, written as numbers, make the same rule, and port 80 lets port 443 through. |
| `PolicyLaws.FirstSectionExactly` | pkg/netruleset/netruleset.go:25-46 | With ports as text and sound peers, a first section is read as documented, for every packet, exactly when it names peers. |
| `PolicyLaws.CoversExactly` | policer_user_guide.md:47 | One section is documented to whitelist no more than another exactly when it picks nobody or its hosts and its ports are covered. |
| `PolicyLaws.LaterSectionsExactly` | pkg/netruleset/netruleset.go:25-31 | With a readable first section, leaving the later ones unread loses no packet exactly when the first covers each of them. |
| `PolicyLaws.SecondSectionIsLost` | pkg/netruleset/netruleset.go:25-31 | A concrete policy with two sections of which the second is documented to let a packet through that no rule matches. |
| `PolicyLaws.PlainlyWrittenMeaning` | policer_user_guide.md:47-62 | Plainly written policies whitelist exactly what they are documented to whitelist. |
| `PolicyLaws.PoliciesAreAdditive` | policer_user_guide.md:47 | The meaning grows with the set of policies. |
| `PolicyLaws.PeersAreAdditive` | pkg/netruleset/netruleset.go:42-61 | The meaning grows with the peers of a first section. |
| `RuleArguments.CreateArgsFromRule` | pkg/provisioner/iptables/iptables.go:176-189 | The arguments are the present fields as flag-value pairs in fixed order, closed by the target. |
| `RuleArguments.ArgumentsRoundTrip` | pkg/provisioner/iptables/iptables.go:176-189 | Parsing the arguments of any rule gives the rule back, an absent operation becoming ACCEPT. |
| `RuleArguments.ArgumentsIdentifyRules` | pkg/provisioner/iptables/iptables.go:158-159 | Equal arguments mean equal normalised rules, and conversely. |
| `SpelledOut.ArgsEndInTarget` | pkg/provisioner/iptables/iptables.go:176-189 | The arguments of a rule end in `-j` and its target, `ACCEPT` if it gives none. |
| `SpelledOut.StateFlagIsLoaded` | pkg/provisioner/iptables/iptables.go:185-187 | `--ctstate` comes right after `-m conntrack`, and is followed by the state. |
| `Verdicts.WhitelistingArgsAreTheirOwn` | pkg/provisioner/iptables/iptables.go:40-62 | No whitelisting rule is confused with RETURN, a jump or REJECT. |
| `PacketFilter.RunEnsureAll` | pkg/provisioner/iptables/iptables.go:157-159 | Leaving out repeated rules changes no decision, whatever they jump or return to. |
| `PacketFilter.EnsureAppendPreservesVerdict` | pkg/provisioner/iptables/iptables.go:156-174 | A table whose chains were built by appending only absent rules gives every packet the verdict of the table with repetitions. |
| `PacketFilter.EnsureAllMembers` | pkg/provisioner/iptables/iptables.go:157-159 | Ensuring rules keeps all of them, none twice, after what was there. |
| `PacketFilter.EstablishedRelatedStates` | types/poltypes/poltypes.go:19 | The text lists exactly the two states of known connections. |
| `Provisioner.ProvisionRulesIntoChain` | pkg/provisioner/iptables/iptables.go:156-174 | Makes one ensure call per rule in order, plus RETURN for a non-empty chain of our own. |
| `Provisioner.EnsureChainWithJump` | pkg/provisioner/iptables/iptables.go:130-138 | A non-empty chain is created, flushed and jumped to; the error is that of creation alone. |
| `Provisioner.EnsureChains` | pkg/provisioner/iptables/iptables.go:114-128 | Fails exactly when one of four creations does; the calls made on each table are those for the chains up to the first that fails, which itself still is flushed and jumped to. |
| `Provisioner.FailureStopsTheRest` | pkg/provisioner/iptables/iptables.go:114-128 | After the first creation that fails, in the order ingress v4, ingress v6, egress v4, egress v6, no later chain of either table is created, flushed or jumped to. |
| `SpelledOut.IngressFailureSparesEgress` | pkg/provisioner/iptables/iptables.go:114-128 | When the IPv4 ingress chain cannot be created, an earlier run's egress chain and OUTPUT stay as they are, whichever other calls fail, and no call is made on the IPv6 table. |
| `Provisioner.AddRulesToNewPod` | pkg/provisioner/iptables/iptables.go:104-111 | Each table goes through its whole plan unless a creation fails, and then through exactly the calls for the chains up to that one. |
| `Provisioner.TraceIsExec` | pkg/provisioner/iptables/iptables.go:104-154 | The recorded state after k calls is what the first k calls make of the first state. |
| `ChainEffects.ExecByChain` | pkg/provisioner/iptables/iptables.go:130-174 | Calls on a table act on each chain separately. |
| `ChainEffects.RulesComeFromCalls` | pkg/provisioner/iptables/iptables.go:156-174 | A rule is in a chain only if a call that did not fail put it there. |
| `ChainEffects.EnsuredRuleStays` | pkg/provisioner/iptables/iptables.go:156-174 | A rule put into a chain nobody flushes stays. |
| `InstalledTables.RunOnFresh` | pkg/provisioner/iptables/iptables.go:104-174 | The closed form of the table a run leaves in a fresh namespace. |
| `InstalledTables.HookAgain` | pkg/provisioner/iptables/iptables.go:130-138 | A built-in chain survives another run exactly when there is something to jump to now if and only if there was before. |
| `InstalledTables.RerunInstallsExactly` | pkg/provisioner/iptables/iptables.go:130-174 | Running again installs the new table exactly when each direction has rules now if and only if it had rules before. |
| `RepeatedRuns.RunsLookup` | pkg/provisioner/iptables/iptables.go:104-174 | The closed form of the table after any number of runs with any rules. |
| `RepeatedRuns.RunsConvergeExactly` | pkg/provisioner/iptables/iptables.go:130-174 | After any number of runs, the table is that of the last run alone exactly when each direction never had rules, or had some in the first and in the last run. |
| `RepeatedRuns.RunsVerdict` | pkg/provisioner/iptables/iptables.go:130-174 | After any runs without failures, a packet is accepted exactly when it is always allowed, or the first run had rules of that direction and one of the last run that had any matches. |
| `RepeatedRuns.EmptinessMatters` | pkg/provisioner/iptables/iptables.go:133-136 | Concrete runs whose late rule is void and whose withdrawn rule stays in force. |
| `Verdicts.OwnChainIsClosed` | pkg/provisioner/iptables/iptables.go:156-173 | A chain of our own holds each rule once, in order of first occurrence, then RETURN. |
| `Verdicts.DefaultAcceptsMeaning` | pkg/provisioner/iptables/iptables.go:13-34 | The default accepting rules match exactly loopback, known connections and, outgoing, DNS. |
| `Verdicts.RunOwnChain` | pkg/provisioner/iptables/iptables.go:165-173 | A chain of our own accepts what a rule matches and returns everything else. |
| `Verdicts.InstalledVerdict` | pkg/provisioner/iptables/iptables.go:13-63 | The installed table accepts exactly what is always allowed or matched by a rule of that direction. |
| `Verdicts.InstalledDecision` | pkg/provisioner/iptables/iptables.go:13-63 | The decision behind it is the same for every bound on nested jumps that allows one. |
| `Verdicts.ForwardVerdict` | pkg/provisioner/iptables/iptables.go:35-39 | FORWARD rejects everything. |
| `Verdicts.OrderPlaysNoPart` | pkg/netruleset/netruleset.go:24-34 | Rule lists with the same members give the same verdicts, in any order and multiplicity. |
| `RunSafety.RunKeepsRulesInPlace` | pkg/provisioner/iptables/iptables.go:114-174 | Whatever calls were made or failed, every rule is in a chain it belongs to. |
| `RunSafety.NothingAfterReject` | pkg/provisioner/iptables/iptables.go:147-154 | After the REJECT of INPUT or OUTPUT a run touches neither that chain nor any of our own. |
| `RunSafety.StepSafety` | pkg/provisioner/iptables/iptables.go:104-174 | After any number of calls a packet is accepted exactly when its chain is still open or the finished table accepts it. |
| `RunSafety.WellPlacedForward` | pkg/provisioner/iptables/iptables.go:35-39 | In every state of a run FORWARD accepts everything until its REJECT is there and nothing afterwards. |
| `RunSafety.AbortedRunAcceptsAll` | pkg/provisioner/iptables/iptables.go:104-109 | Stopping within the creation of chains leaves a fresh namespace open. |
| `RunSafety.ClosedExactly` | pkg/provisioner/iptables/iptables.go:156-164 | A built-in chain holds its REJECT exactly when some call for it did not fail. |
| `RunSafety.FailuresOnlyRestrictExactly` | pkg/provisioner/iptables/iptables.go:156-174 | With failing calls the accepted packets are a subset of the fault-free ones exactly when the REJECT call succeeds, or there was nothing to reject. |
| `Recovery.AttemptsKeepOrder` | pkg/provisioner/iptables/iptables.go:114-174 | After any series of runs, each stopped anywhere and with any failing calls, every rule is one that a run may put into its chain. |
| `Recovery.RerunVerdict` | pkg/provisioner/iptables/iptables.go:130-174 | The verdicts after one more run without failures on such a table: what is reached before the first REJECT, by default rules, new rules or what is left of old ones. |
| `Recovery.RecoversExactly` | pkg/provisioner/iptables/iptables.go:130-174 | One more run without failures enforces whatever rules it brings exactly when no REJECT precedes the jump or a default rule. |
| `Recovery.OneFailureStays` | pkg/provisioner/iptables/iptables.go:133-136 | If just the call for the jump fails in a first run, the same run again still rejects what its rule whitelists. |
| `ReleaseHandlers.SelectReleaseIpServiceImplementation` | pkg/danmep/interface.go:37-44 | DANM's handler exactly when DANM allocated the address from one of the network's two blocks; Calico's exactly when it did not, the address is neither empty nor `none`, and the network type is calico; otherwise none. The order of asking is immaterial. |
| `CleanerProtocol.NoLeak` | pkg/danmep/interface.go:46-65 | Over any interleaving of workers, failures and lost replies, with every endpoint safely attached, every lease there is was taken for an endpoint that is still on record. |
| `CleanerProtocol.NoLeakExactly` | pkg/danmep/interface.go:37-65 | For any set of possible attachments, no run of them leaks exactly when each has its leases where deletion releases them, or an address without owner. |
| `CleanerProtocol.SafeExactly` | pkg/danmep/danm.go:9-12 | An attachment is safe, in terms of DANM's test, the network type and the address texts alone, exactly when each lease is in the claimant's store for one of the addresses, or one of the addresses has no claimant. |
| `CleanerProtocol.DanmAttachmentIsSafe` | pkg/danmep/danm.go:9-12 | An endpoint both of whose addresses DANM allocated, with its leases in its own network's store, is safely attached. |
| `CleanerProtocol.CalicoAttachmentIsSafe` | pkg/danmep/calico.go:14-19 | So is a Calico endpoint with its leases in Calico's store, if DANM disowns both addresses. |
| `CleanerProtocol.MisroutedLeaks` | pkg/danmep/danm.go:9-12 | A run that leaks: Calico holds the address of an endpoint, and DANM takes the addresses of the endpoint for its own. |
| `CleanerProtocol.DeletedExactly` | pkg/danmep/interface.go:50-65 | Some run deletes the record of an endpoint by a worker exactly when both of its addresses have an owner. |
| `CleanerProtocol.OwnerlessRecordStays` | pkg/danmep/interface.go:54-63 | Over any run, a record of which an address has no owner is removed by nobody but the CNI plugin. |
| `CleanerProtocol.CallKeepsInv` | pkg/danmep/interface.go:49-65 | Every call of a worker keeps each lease held by a record no worker is about to delete on account of an old release. |
| `CleanerProtocol.RunRemembers` | pkg/cleaner/cleaner.go:103-108 | A Pod once dead stays dead, recorded endpoints stay known, and a record once gone stays gone. |
| `CleanerProtocol.AbsentMeansDead` | pkg/cleaner/cleaner.go:102-105 | When the recorded Pod name is free or taken by another UID, the endpoint's Pod is dead. |
| `Cleaner.Cluster.DeleteDanmEp` | pkg/danmep/interface.go:49-65 | The result is the one that the owners of the two addresses and the failing requests call for, and the calls made are those it names, others acting in between: the record is deleted last and only after both addresses are released. |
| `Cleaner.Cluster.DeleteInterface` | pkg/cleaner/cleaner.go:183-206 | Hands over exactly one endpoint. It is given up, without any release, exactly when the look-up of its record fails or finds none at that moment, or the request for its network fails; otherwise it is deleted as above. Unless a request fails, an endpoint with two owners has no record afterwards. |
| `Cleaner.Cluster.CleanDanglingEps` | pkg/cleaner/cleaner.go:91-113 | Each Pod is asked for once, by the name in its first endpoint, and each answer is right at its moment of this run, an error just for a failing request. Handed to deletion are exactly the endpoints whose Pod's answer shows them dangling, cached or not, each Pod dead at that moment. Over every interleaving, if no question fails, these include all the listed endpoints of Pods dead when the pass begins; if no request fails, none of those with two owners is left on record. |
| `Cleaner.DeadDangle` | pkg/cleaner/cleaner.go:102-108 | When the Pods of a list are asked for after some moment and no question fails, every listed endpoint of a Pod dead at that moment is shown to dangle, whatever happens in between. |
| `Cleaner.FirstsExactly` | pkg/cleaner/cleaner.go:92-101 | The endpoints by which Pods are asked for are just those not preceded in the list by one of the same Pod. |
| `Cleaner.HandedDeadExtends` | pkg/cleaner/cleaner.go:95-101 | Hand-overs to dead Pods only is kept by other actors' steps and by one more hand-over to a dead Pod. |
| `AddressArithmetic.AddIP` | cmd/showalloc/showalloc.go:23-34 | The new address keeps the first twelve bytes and adds the number to the last four modulo 2^32. |
| `AddressArithmetic.DiffUndoesAdd` | cmd/showalloc/showalloc.go:23-42 | The difference recovers the number added, for every 32-bit number. |
| `AddressArithmetic.AddUndoesDiffExactly` | cmd/showalloc/showalloc.go:23-42 | Adding the difference gives the second address exactly when the first twelve bytes agree. |
| `AddressArithmetic.AddComposes` | cmd/showalloc/showalloc.go:23-34 | Additions compose modulo 2^32. |
| `AddressArithmetic.MappedForm` | cmd/showalloc/showalloc.go:23-34 | The 16-byte form of a four-byte address: ten zeros, two bytes of ones, and the four bytes. |
| `AllocWalk.FindEpByIP` | cmd/showalloc/showalloc.go:44-57 | In IPv4 mode the first endpoint whose `address`, in IPv6 mode the first whose `addressIPv6`, is read as an address that in 16-byte form is the given one; none if there is none. |
| `AllocWalk.OtherFamilyPlaysNoPart` | cmd/showalloc/showalloc.go:44-57 | A listing is unchanged when only the address texts of the other family change. |
| `AllocWalk.Walk` | cmd/showalloc/showalloc.go:164-200 | Prints the lines of the listing, for every block, pool, filter and mode. |
| `AllocWalk.NoWrapAround` | cmd/showalloc/showalloc.go:165-172 | Within a block the last four bytes never wrap around. |
| `AllocWalk.FullListing` | cmd/showalloc/showalloc.go:171-199 | Showing everything lists each address once, each one more than the one before as a 128-bit number, with the status its position, its bit and, for a pool inside the block, its place between the pool addresses call for. |
| `AllocWalk.DefaultListing` | cmd/showalloc/showalloc.go:176-199 | For a pool inside the block, the default listing shows exactly the two ends and the allocated addresses numerically between the pool addresses. |
| `AllocWalk.FilteredListing` | cmd/showalloc/showalloc.go:173-175 | A listing under a filter is the unfiltered one restricted to the wanted addresses. |
| `AllocWalk.ListingIncreases` | cmd/showalloc/showalloc.go:171-199 | Addresses are listed in increasing order as 128-bit numbers, so none twice, whatever is filtered out. |

## Left out

- Client sets, listers, informers and deep copies: generated code over libraries that are not part of this model.
- Informer and work-queue plumbing, leader election, sleeps and flags: listings, failing requests and everybody else's steps are inputs or arbitrary.
- Switching network namespaces and locking threads: a namespace is looked up by name among the tables it holds.
- The goroutine in which provisioning runs: the run is modelled as part of handling the Pod.
- `LabelSelectorAsMap`: a selector carries the library's answer, a map or an error; a map that does not say what the selector selects, as for requirements that contradict a label of the same key, is outside `PolTypes.Flattens`.
- NamespaceSelector, PolicyTypes, the empty policy event handlers and sections after the first: not consumed by the code.
- Real iptables: chain creation, flushing and append-if-absent only; nested jumps are followed to a fixed depth of 16, more than the one level that occurs.
- The Cleaner's event path by Pod name: it does not compare UIDs, so the dead-Pod property is claimed of the periodic pass only; its deletions are workers of the protocol like any other.
- CleanerProtocol.NoLeak: does not exclude that an address is released twice, because two workers may delete the same endpoint.
- Calicoctl, DANM's bit array and `GetNetworkFromEp`: releases change an abstract set of leases; an endpoint's network is fixed.
- AllocWalk.Walk: lines are values, not formatted text; reading CIDR texts is a parameter.
- Log messages, `NetRule.String` and printing.
