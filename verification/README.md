# mailout relay: a verified model

Mailout is an SMTP submission relay for Kubernetes. An operator turns `MailoutGateway` and `MailoutAccount` objects
into one configuration, and the relay serves it: applications authenticate, submit messages from addresses the
gateway's owner granted them, and the relay filters, signs and hands each message to an upstream server. This project
models that path from the owner's grants to the wire and proves what holds on every input and in every run.

Main results:

- **Sessions and reloads.** In every interleaving of reloads and sessions, a message handed to the upstream comes from a
  connection that sent its account's password and had it verified against the hash of the snapshot it was connected
  under; the account was enabled when its DATA began, its envelope sender and From header were allowed by the account's
  own list, and the store answered an increment within the limit for every quota declared
  (`Guarantees.EveryMessageIsAuthorized`). Its envelope and its bytes are those its connection sent
  (`Submission.EveryMessageIsSubmitted`). No filter declined it, and where filters fail closed it left by way of the
  whole chain of the snapshot adopted at its DATA (`EveryMessageIsFiltered`).
  Revocation holds (`RevokedSendsNothing`). From every reachable state, an authorized message goes through, whatever
  other sessions and replicas do between its steps (`AuthorizedGoesThrough`).
- **Quotas.** For any number of replicas that share a store, the messages relayed for one account in one window number at
  most messagesPerMinute and their recipients at most recipientsPerMinute (`Fleet.QuotaIsKept`), in every run whose clocks
  and latency fit the window, whatever names the store's log holds. The counters hold their limits if and only if they
  do (`Quota.QuotaHoldsIff`).
- **End to end.** Whatever the operator collects, sorts and cuts into configurations and however the relay is driven,
  every sender, From header of an account that is not exempt, and signature traces back to an entry of a grant that
  selects the namespace of the very account served, a namespace the owner admits (`Guarantees.OwnerDecides`,
  `Render.RenderAccounts`).
- **Messages.** Parsing and printing stabilise on all inputs, with the exact sets of messages and texts that survive each
  round trip; a bounded prefix decides the headers; the streaming rewrite refines the in-memory one.
- **Policies.** Narrowing is sound and exact, signing rights equal sending rights, each with its exact condition.
- **Objects.** The server, its sessions and its stores, driven as objects through any sequence of stimuli, end where a run
  of the machine ends (`System.Drive`).

Where the code updates things in place the model does too: classes for the spool, the parsed message, the message in
flight, the quota store, the LOGIN exchange, the relay, its sessions and the system they form. Each method is proved
against a function on values, and the lemmas are about those functions.

| file | models |
|---|---|
| `Text.dfy` | byte strings: trimming, case, searching, ordering, decimals |
| `Message.dfy` | parsing, printing, the bounded header prefix, header edits |
| `Spool.dfy` | the body buffer, on the heap or in a file |
| `Milter.dfy` | filter actions, the streaming rewrite, the chain |
| `Policy.dfy`, `Grants.dfy` | sender policies; narrowing a grant |
| `Accounts.dfy`, `Access.dfy`, `Render.dfy` | accounts served; the operator's resolution of grants and names; the accounts of a configuration |
| `Quota.dfy` | the shared counters as a protocol |
| `Inbound.dfy` | the Received header, the From check, the signing gate |
| `Login.dfy` | the LOGIN exchange |
| `Server.dfy`, `Guarantees.dfy` | one relay as a machine; what every run keeps |
| `Submission.dfy` | what a relayed message is made of |
| `Fleet.dfy` | any number of relays that share their stores; the quotas |
| `Session.dfy`, `System.dfy` | the objects that perform the machine's steps; all of them driven together |
| `Fit.dfy` | fitting a configuration into its size budget |

## Conventions

- A byte is a `char`; case folding and white space are the ASCII ones. The 128-byte bound of `headerSafe` counts
  characters.
- File-system faults, clocks, password verification, bcrypt costs, filter replies and the interleaving of other replicas
  are parameters. Which filters there are, and whether they fail open, is configuration. The commands the SMTP library
  lets through are guards: no AUTH after a successful one (section 4 of RFC 4954), and MAIL, then RCPT, then DATA
  (section 3.3 of RFC 5321).
- A DATA command takes several steps of the machine: it begins, runs an increment and its expiry for each dimension
  counted, reads the body and hands it over. Reloads, other sessions and other replicas run between them. The machine's
  state holds the log of each store, and as history the snapshots in service, how each session logged in and which DATA
  each increment was made for.
- Which store a store configuration reaches is a parameter, so that two configurations may share one.

## Where comments and code disagree

The model follows the code.

- internal/gateway/config.go:110 and internal/render/render.go:58 say an empty `allowedSenders` leaves the envelope
  unrestricted; the code lets such an account send nothing.
- internal/gateway/message.go:28 says a message with no header separator is all body, and internal/gateway/milter.go:225
  relies on it; text that starts with a header line parses to headers with or without a separator.
  `Milter.StreamingIsRightIff` gives the exact messages on which the filter is shown what parsing yields.
- internal/gateway/server.go:721-723 says a message with no From header is left alone; the code refuses it.

## Properties that need a condition

Each of these fails on some inputs. The condition is proved necessary and sufficient.

- Print then parse gives the message back: exactly when every name and value could have been parsed (`PrintParse`).
- Parse then print gives the text back: exactly for canonical header blocks (`PrintParseIsIdentity`).
- The streaming rewrite equals the in-memory one for all filters: exactly on `Faithful` messages (`StreamingIsRightIff`);
  `AcceptedIsNotFaithful` is a family of accepted messages that are not.
- The next filter is shown the edited headers: exactly when they can be parsed back (`NextFilterSees`).
- A refused sender entry permits something ungranted: exactly for entries without a closed bracket (`RefusalExactIff`).
- Signing rights equal sending rights: exactly for `Aligned` policies (`SigningIsSending`); `SpacedDomainIsNotSigned`
  is a family of policies that are not, and `PlainListsAreAligned` covers every ordinary list.
- The trace header adds one header and nothing else: exactly for messages not starting with white space
  (`ReceivedIsOneHeader`).
- A quota holds in every run: exactly when `2 * skew + latency <= WINDOW` (`QuotaHoldsIff`).
- No span of one window's length lets out more than twice the limit: on the clocks that name the windows always
  (`TwiceTheLimit`), in the store's own time exactly when clocks agree and commands take no time
  (`TwiceInStoreTimeIff`). Otherwise three limits is the bound (`ThreeTimesTheLimit`), and `StraddlingPasses` is a run
  that reaches it.

## Model

| member | source | states |
|---|---|---|
| `Message.ParseMessage` | internal/gateway/message.go:30-72 | the loop computes `Parse`, whose value the five rows below give line by line |
| `Message.StartsWithLine` | internal/gateway/message.go:33-41 | every text starts with a line: its text, what ends it, and the rest |
| `Message.ReadHeaderLine` | internal/gateway/message.go:51-61 | a line with a colon is a header named by what precedes the first colon, with what follows it less one space, whatever ends the line |
| `Message.ReadContinuation` | internal/gateway/message.go:45-50 | a line starting with white space is joined to the last header by CRLF, whatever ends the line |
| `Message.ReadBlank` | internal/gateway/message.go:42-44 | a blank line ends the headers, and what follows is the body |
| `Message.ReadColonless` | internal/gateway/message.go:52-57 | any other line without a colon starts the body |
| `Message.Bytes` | internal/gateway/message.go:87-95 | the loop prints every header in order, the blank line and the body |
| `Message.PrintParse` | internal/gateway/message.go:30-95 | printing then parsing a message gives it back if and only if its names and values are ones a parser can produce |
| `Message.ParsePrintParse` | internal/gateway/message.go:30-95 | for every byte string, parsing its printed parse gives the same parse |
| `Message.PrintParseIsIdentity` | internal/gateway/message.go:30-95 | parsing then printing is the identity on exactly the texts with a canonical CRLF header block |
| `Message.ParseFromIsOk` | internal/gateway/message.go:33-65 | whatever the input, parsed names hold no colon or line feed and parsed values only proper folds |
| `Message.TerminatedEndsBlank` | internal/gateway/spool.go:168-178 | a block reported as terminated ends in a blank line |
| `Message.BlockIs` | internal/gateway/spool.go:163-178 | of the first megabyte: up to the first CRLF blank line, else up to the first LF blank line, else all of it and not terminated |
| `Message.PrefixDecides` | internal/gateway/spool.go:155-178 | a terminated block has the headers of the whole message, and the body is its left-over followed by the rest |
| `Message.NthUnique` | internal/gateway/message.go:117-136 | at most one header is the n-th of a name, so an edit by position is well defined |
| `Message.ParsedMessage.AddHeader` | internal/gateway/message.go:99-101 | one header is appended and nothing else changes |
| `Message.ParsedMessage.InsertHeader` | internal/gateway/message.go:104-115 | one header is inserted where `Inserted` puts it |
| `Message.Inserted` | internal/gateway/message.go:104-115 | at its one-based position, or at the end it lies beyond, with the others in order around it |
| `Message.ParsedMessage.ChangeHeader` | internal/gateway/message.go:120-140 | the header that name and number pick is changed as `Changed` says |
| `Message.ChangedValues` | internal/gateway/message.go:117-140 | of the values of that name the n-th is replaced or taken out, one is appended when there are not so many, and no other name is touched |
| `Spool.TempFile.Write` | internal/gateway/spool.go:53 | a write at the cursor overwrites, extends and may be cut short by a full disk |
| `Spool.TempFile.ReadFrom` | internal/gateway/spool.go:109-128 | seeking and reading moves the cursor that writes share |
| `Spool.Spool.constructor` | internal/gateway/spool.go:36-39 | a new spool is empty and on the heap |
| `Spool.Spool.Overflow` | internal/gateway/spool.go:67-84 | moving to a file keeps the contents, and a failure changes nothing |
| `Spool.Spool.Write` | internal/gateway/spool.go:42-59 | the contents grow by exactly the bytes reported written, on the heap or on disk, and the heap stays within the threshold |
| `Spool.Spool.Sibling` | internal/gateway/spool.go:95 | a fresh empty spool with the same threshold |
| `Spool.Spool.Len` | internal/gateway/spool.go:101 | the length of the contents, wherever they are |
| `Spool.Spool.ReadAt` | internal/gateway/spool.go:105-128 | reads the suffix at a clamped offset and changes no byte |
| `Spool.Spool.HeaderBlock` | internal/gateway/spool.go:163-178 | the block found in the stored bytes is the one of the contents as a value |
| `Spool.Spool.Reset` | internal/gateway/spool.go:181-197 | the contents become the new bytes, or a prefix of them when a write fails, in the same storage |
| `Spool.Spool.Copy` | internal/gateway/server.go:623-625 | chunked copying appends a prefix, and all of it when no write fails |
| `Spool.SpoolIsAString` | internal/gateway/spool.go:42-128 | for every threshold and every chunking, the spool reads back, measures and splits as the concatenation, and bounds its heap |
| `Milter.RemoveRecipient` | internal/gateway/milter.go:371-379 | the loop leaves out every spelling of the address |
| `Milter.WithoutIsExact` | internal/gateway/milter.go:371-379 | every other recipient keeps its multiplicity and no spelling of this one stays |
| `Milter.UnbracketIs` | internal/gateway/milter.go:367-369 | one bracket is taken off each end that has one |
| `Milter.LastSender` | internal/gateway/milter.go:283-284 | the last change of sender decides |
| `Milter.SenderStays` | internal/gateway/milter.go:283-284 | without a change of sender the sender stays |
| `Milter.RecipientsLeft` | internal/gateway/milter.go:285-288 | a recipient is left exactly when it was there or was added and nothing after that took it out |
| `Milter.ReplacementConcat` | internal/gateway/milter.go:275-282 | the replacement is the chunks put together, and there is one exactly when there is a chunk |
| `Milter.ReplacementOfOne` | internal/gateway/milter.go:275-282 | one chunk is a replacement by itself, and any other action none |
| `Milter.EditedConcat` | internal/gateway/milter.go:263-274 | header actions act one after the other |
| `Milter.EditedByOne` | internal/gateway/milter.go:266-274 | alone, an action appends, inserts or changes a header, or does nothing to them |
| `Milter.ViewIs` | internal/gateway/milter.go:209-235 | a filter is shown the headers of the whole message and what follows the block, or no headers and all of it |
| `Milter.StreamedIs` | internal/gateway/milter.go:304-308 | without a header action or replacement the message stays as it is byte for byte, and else is the edited headers, a blank line and the body or replacement |
| `Milter.ViewIsParse` | internal/gateway/milter.go:205-235 | what a filter is shown is the parse of the whole message if and only if the message is `Faithful` |
| `Milter.StreamedIsInMemory` | internal/gateway/milter.go:253-308 | on a terminated block, with a replacement body or nothing left over, streaming equals rewriting in memory |
| `Milter.StreamingIsRightIff` | internal/gateway/milter.go:205-249 | streaming equals rewriting in memory for all filter actions if and only if the message is `Faithful` |
| `Milter.PrintedIsTerminated` | internal/gateway/milter.go:387-393 | a rewritten message has a terminated header block when its headers fit the bound |
| `Milter.NextFilterSees` | internal/gateway/milter.go:121-127 | the next filter is shown the edited headers if and only if they can be parsed back |
| `Milter.WriteHeaders` | internal/gateway/message.go:76-84 | the spool receives the printed header block unless a write fails |
| `Milter.RewriteBody` | internal/gateway/milter.go:387-413 | the message becomes the printed headers and the replacement or original body, or stays as it was on failure |
| `Milter.EditHeaders` | internal/gateway/milter.go:266-274 | each header action extends the fold of the actions before it |
| `Milter.EditEnvelope` | internal/gateway/milter.go:283-288 | each envelope action extends the fold of the actions before it |
| `Milter.Replace` | internal/gateway/milter.go:275-282 | replacement chunks are concatenated in a spool made for the first |
| `Milter.FoldActions` | internal/gateway/milter.go:263-303 | the loop folds all actions in order, and stops with 554 at a quarantine |
| `Milter.ApplyModifications` | internal/gateway/milter.go:253-319 | the message accepted is the streamed rewrite, and acceptance fails exactly on quarantine or when no recipient is left |
| `Milter.RunOne` | internal/gateway/milter.go:205-250 | the block split hands the actions what `View` shows and applies them |
| `Milter.Run` | internal/gateway/milter.go:125-160 | with no fault the loop is the chain of filters as a function; a message passes only when no filter declines or drops it; where filters fail closed, no fault passes a message that is not filtered in full |
| `Milter.ChainIs` | internal/gateway/milter.go:121-158 | the chain passes a message exactly when every filter asks for actions that leave a recipient and quarantine nothing, or fails open, and what leaves is their edits one after the other |
| `Milter.ChainStops` | internal/gateway/milter.go:133-155 | the first refusal decides: the filter's own error code or 550, 451 when it cannot be reached, 554 for a quarantine or no recipient, and silence for a discard |
| `Policy.NewSenderPolicy` | internal/gateway/policy.go:27-47 | the loop computes the union of what each entry grants, malformed entries granting nothing |
| `Policy.EntryPermits` | internal/gateway/policy.go:27-71 | one entry allows its own address or, with a star, every address of its domain, compared in lower case, and nothing where a part is missing |
| `Policy.EntrySigns` | internal/gateway/policy.go:73-92 | one entry lets exactly its domain be signed |
| `Policy.NormalIs` | internal/gateway/policy.go:33 | space around an entry and its case do not count |
| `Policy.AllowsByOne` | internal/gateway/policy.go:27-71 | a list allows an address if and only if one of its entries alone does |
| `Policy.SignsByOne` | internal/gateway/policy.go:27-92 | a list lets a domain be signed if and only if one of its entries alone does |
| `Policy.CoveredIsNarrower` | internal/gateway/policy.go:110-133 | a covered entry gives no sending and no signing right the grant lacks |
| `Policy.BareIsPlain` | internal/gateway/policy.go:96-108 | what is looked up is empty or a trimmed lower-case address with no closed bracket |
| `Policy.RefusalIsExact` | internal/gateway/policy.go:115-133 | an entry without closed brackets is refused if and only if it is malformed or permits an address the grant does not |
| `Policy.BracketedPermitsNothing` | internal/gateway/policy.go:96-133 | a bracketed entry allows no address at all |
| `Policy.RefusalExactIff` | internal/gateway/policy.go:115-133 | refusal is exact for every grant if and only if the entry is malformed or has no closed bracket |
| `Policy.DisplayNameIsIgnored` | internal/gateway/policy.go:94-108 | a display name and brackets change neither what is allowed nor which domain is signed |
| `Policy.DomainOfBare` | internal/gateway/dkim.go:167-181 | the signing domain of any address is the domain the sending check looks up, up to leading white space |
| `Policy.CompileIsCompiled` | internal/gateway/policy.go:33-44 | every compiled policy holds normal addresses and non-empty lower-case domains |
| `Policy.SendableDomains` | internal/gateway/policy.go:61-71 | the domains of the allowed addresses, characterised by the policy's entries |
| `Policy.SigningIsSending` | internal/gateway/policy.go:10-16 | a domain can be signed exactly when some address of it may send, for all domains, if and only if the policy is `Aligned` |
| `Policy.PlainListsAreAligned` | internal/gateway/policy.go:73-92 | lists with no closed bracket and no white space after the at sign are `Aligned` |
| `Policy.SpacedDomainIsNotSigned` | internal/gateway/policy.go:33-41 | an entry with a space after its at sign lets through addresses whose domain it cannot have signed |
| `Grants.Covers` | internal/gateway/policy.go:115-133 | the loop returns the uncovered entries in order |
| `Grants.KeepSplits` | internal/gateway/policy.go:161-177 | kept and refused entries are the request, with multiplicities |
| `Grants.KeepConcat` | internal/gateway/policy.go:166-176 | entries are kept one by one, in the order they were asked for |
| `Grants.KeepOne` | internal/gateway/policy.go:171-175 | one entry is kept or refused by whether it is covered |
| `Grants.KeepMembers` | internal/gateway/policy.go:166-176 | an entry is kept exactly when it was requested and is covered |
| `Grants.Entries` | internal/gateway/policy.go:137-147 | the listing is sorted and holds each grant once, in whatever order the maps are walked |
| `Grants.SortedUnique` | internal/gateway/policy.go:135-147 | that listing is the same on every walk |
| `Grants.RecompileListing` | internal/gateway/policy.go:137-147 | compiling a policy's listing gives the policy back |
| `Grants.GrantedSubset` | internal/gateway/policy.go:161-177 | an empty request gets the whole grant, any other its covered entries in order and its refused ones |
| `Grants.SubsetIsGranted` | internal/gateway/policy.go:149-177 | every right of the result comes from one entry of the grant |
| `Grants.SubsetKeepsAll` | internal/gateway/policy.go:158-177 | an address is allowed exactly when the grant, or a requested and covered entry, allows it |
| `Accounts.ValidUsername` | internal/gateway/config.go:256-268 | accepts exactly 1 to 128 printable bytes without space or delimiter |
| `Accounts.PartitionAccounts` | internal/gateway/config.go:201-242 | the loop serves the first account fit to be served of each name and gives the reason for the others |
| `Accounts.ServedIff` | internal/gateway/config.go:201-242 | served is exactly the first account of a name that has a valid name and a bcrypt hash of cost 10 to 14 |
| `Accounts.WhyNotIff` | internal/gateway/config.go:205-236 | each of the five reasons is given exactly under its condition |
| `Accounts.ServedMembers` | internal/gateway/config.go:201-242 | served and rejected accounts together are all accounts |
| `Accounts.ServedIsExact` | internal/gateway/config.go:198-242 | a name is served if and only if an account well formed by itself carries it, and at one position only |
| `Accounts.QuotaKeyInjective` | internal/gateway/ratelimit.go:291-294 | equal keys mean equal gateway, account, dimension and window, even when the hostname contains colons |
| `Text.DecimalReads` | internal/gateway/ratelimit.go:292-293 | the number of the window is written in decimal: reading it back gives the number |
| `Text.LessIsLexicographic` | internal/controller/account_controller.go:181 | strings are compared at the first byte where they differ, and a prefix comes first |
| `Access.UsernamesAreApart` | internal/webhook/v1alpha1/mailoutaccount_webhook.go:105-112 | accounts that pass the prefix rule from different namespaces never share a username |
| `Access.UsernameConflict` | internal/controller/account_controller.go:150-186 | the loop finds an owner if and only if an older rival exists, and names one |
| `Access.ExactlyOneOwner` | internal/controller/account_controller.go:168-183 | of the accounts claiming one username exactly one is not in conflict: the oldest, and of those created together the one with the first identifier |
| `Access.RequirementsAgree` | internal/controller/access.go:43-51 | the four kinds of label requirement, each in terms of the one that names values |
| `Access.NamespaceAllowedIff` | internal/controller/access.go:26-55 | a namespace is admitted exactly by the owner's rule: all, the gateway's own, or those a valid selector picks; and the rule fails exactly where it cannot be applied |
| `Access.GrantedSenders` | internal/controller/access.go:72-95 | fails if and only if a selector is invalid or the namespace cannot be read, and else returns the union of the grants that apply |
| `Access.GrantedMembers` | internal/controller/access.go:65-95 | an entry is granted exactly when a grant that applies to the labels lists it |
| `Access.CollectOne` | internal/controller/gateway_controller.go:155-215 | one account is skipped, blocks the collection or is served, each exactly under its condition |
| `Access.ServedAsIff` | internal/controller/gateway_controller.go:155-215 | an account is served exactly when it refers to this gateway, its namespace is admitted and its Secret holds a hash, as what the account and its Secret say |
| `Access.BlocksIff` | internal/controller/gateway_controller.go:159-193 | the accounts on which the collection fails, in terms of the gateway, the namespace and the Secret |
| `Access.CollectAccounts` | internal/controller/gateway_controller.go:146-218 | fails if and only if some account blocks, and else collects every eligible account in order |
| `Access.CollectedFrom` | internal/controller/gateway_controller.go:209-215 | every collected account was resolved from one listed account |
| `Access.EveryoneIsCollected` | internal/controller/gateway_controller.go:154-216 | every listed account that qualifies is collected |
| `Access.RightsComeFromGrants` | internal/controller/gateway_controller.go:186-215 | whatever a collected account may send from or have signed, one entry of a grant selecting its namespace allows |
| `Render.SortByName` | internal/render/render.go:135-136 | the accounts sorted by username, each as often as before |
| `Render.RenderAccounts` | internal/controller/gateway_controller.go:88-107 | collecting, sorting and cutting gives a rendered configuration that lacks no more than the budget asks for, and fails if and only if the collection does |
| `Render.RenderedIsServed` | internal/controller/gateway_controller.go:363-372 | every account left in a rendered configuration carries over one listed account that qualifies for this gateway |
| `Quota.NeverExpiresEarly` | internal/gateway/ratelimit.go:280 | in every timely run within the clock bound, what was counted under the key of a command is still there when it runs |
| `Quota.AnswersAreTotals` | internal/gateway/ratelimit.go:269-285 | however replicas interleave, an increment is answered with everything added so far under its key, whatever names the log holds |
| `Quota.CountsAreExact` | internal/gateway/ratelimit.go:269-294 | where the names can be served, that is all and only what was added for its gateway, account, dimension and window |
| `Quota.PassedWithinLimit` | internal/gateway/ratelimit.go:269-285 | from timing and order alone, the increments one counter answers within the limit add up to at most the limit |
| `Quota.OnceOverAlwaysOver` | internal/gateway/ratelimit.go:249-255 | once a counter is over its limit, every later increment in that window is refused |
| `Quota.TwiceTheLimit` | internal/gateway/ratelimit.go:291-294 | on the clocks that name the windows, no span of one window's length lets through more than twice the limit |
| `Quota.ThreeTimesTheLimit` | internal/gateway/ratelimit.go:18-28 | in the store's own time, no span of one window's length lets through more than three times the limit |
| `Quota.StraddlingPasses` | internal/gateway/ratelimit.go:23-27 | three increments within one window's length of store time that all pass a limit of one |
| `Quota.TwiceInStoreTimeIff` | README.md:267-271 | the documented bound of twice the limit holds in the store's own time, for any account and in every run, if and only if clocks agree and commands take no time |
| `Quota.ExpiryIsNotPostponed` | internal/gateway/ratelimit.go:261-280 | no later traffic moves an expiry once set |
| `Quota.QuotaHoldsIff` | internal/gateway/ratelimit.go:28 | the quota of any account holds in every run if and only if twice the clock skew plus the latency fits in one window |
| `Quota.QuotaStore.Increment` | internal/gateway/ratelimit.go:269-285 | the pair of commands runs in order with others between, and the answer is the increment's |
| `Quota.QuotaStore.Check` | internal/gateway/ratelimit.go:221-259 | the loop counts each declared dimension in order and stops at the first refusal or failure |
| `Quota.AllowedWasCounted` | internal/gateway/ratelimit.go:230-258 | a message is let through only after an increment within the limit for every declared dimension |
| `Quota.AllowedMeans` | internal/gateway/ratelimit.go:230-258 | a check that lets a message through has added one message where messages are limited, and its recipients where those are, each answered within the limit |
| `Quota.RefusedMeans` | internal/gateway/ratelimit.go:236-256 | a refusal means an increment past a declared limit or an increment not answered, and where nothing is declared the store is not asked |
| `Inbound.HeaderSafe` | internal/gateway/server.go:828-838 | the result is bounded and free of control characters, DEL included |
| `Inbound.HeaderSafeIsIdentity` | internal/gateway/server.go:822-838 | a value is written as it is exactly when it is short and printable, and scrubbing twice is scrubbing once |
| `Inbound.ReceivedIsOneHeader` | internal/gateway/server.go:816-820 | whatever the client calls itself, the header adds exactly one field and keeps the message, if and only if it does not start with white space |
| `Inbound.ReceivedText` | internal/gateway/server.go:816-820 | the three lines of the header and who is named where |
| `Inbound.ReceivedNamesAccount` | internal/gateway/server.go:808-820 | equal trace headers come from the same served account and date, whatever else is interpolated |
| `Inbound.CheckHeaderFrom` | internal/gateway/server.go:742-783 | the loop gives the verdict of the header rules on the bounded block and leaves the body alone |
| `Inbound.FromCheckIsExact` | internal/gateway/server.go:742-783 | looking at the bounded block gives the verdict of the whole message's headers |
| `Inbound.FromAcceptedIff` | internal/gateway/server.go:742-783 | accepted exactly when the block ends within the bound, no header name ends in white space, and there is one From header and the policy allows it |
| `Inbound.AcceptedFrom` | internal/gateway/server.go:724-783 | an accepted submission has exactly one From header, written by the client, and the policy allows it |
| `Inbound.ColonlessIsNotFaithful` | internal/gateway/message.go:28-58 | headers followed by a line that is no header parse to those headers and that text, and no filter is shown that |
| `Inbound.AcceptedIsNotFaithful` | internal/gateway/milter.go:221-230 | messages the From check accepts, with their trace header, on which some filter action does not do what it does in memory |
| `Inbound.AllowedIsSigned` | internal/gateway/dkim.go:106-165 | under a plain list every allowed sender is signed for its own domain when the gateway has its key |
| `Inbound.SignedForIff` | internal/gateway/dkim.go:106-165 | signed for a domain exactly when the gateway has its key, the policy lets it be signed, and it is the sender's or, where that has no key, the first From header's |
| `Fit.SortBySize` | internal/render/render.go:403-424 | the order holds every account once, largest first, ties by username |
| `Fit.OrderIsUnique` | internal/render/render.go:421-423 | with distinct usernames there is only one such order |
| `Fit.FitAccounts` | internal/render/render.go:398-453 | drops the shortest prefix of the order that fits and keeps the rest in place, or changes nothing |
| `Fit.ShortestIsShortest` | internal/render/render.go:426-448 | the prefix dropped fits and no shorter one does |
| `Fit.NoneFits` | internal/render/render.go:426-452 | where nothing is dropped, no prefix fits up to the first size that cannot be told |
| `Fit.KeptIs` | internal/render/render.go:437-443 | what is kept stands in its old order, each account once |
| `Fit.GreedyIsOptimal` | internal/render/render.go:391-397 | when sizes add up, no smaller set of accounts could have been dropped instead |
| `Login.LoginServer.Next` | internal/gateway/auth.go:150-174 | the object performs one step of the exchange |
| `Login.Progress` | internal/gateway/auth.go:150-174 | where the exchange stands, told from the client's answers alone |
| `Login.OneCallPerExchange` | internal/gateway/auth.go:133-174 | the authenticator is called at most once, with what the client sent; the client is asked for the name or the password that is missing, told the outcome of that call, and refused from then on |
| `Server.SnapshotIsWellBuilt` | internal/gateway/server.go:92-126 | every account of a snapshot is one of its configuration's, fit to be served, under its own policy, and the limiter counts for the gateway |
| `Server.SnapshotServes` | internal/gateway/server.go:92-125 | a snapshot serves exactly the first well formed account of each name |
| `Server.OwnNamesAreServed` | internal/gateway/ratelimit.go:221-256 | whatever a relay itself brings to a store is for a name that can be served |
| `Server.BuiltLimiter` | internal/gateway/server.go:82-90 | a limiter carries the new limits and the gateway's name, and its connection is reused exactly for a store equal in every field |
| `Server.ThreeTries` | internal/gateway/server.go:432-468 | three wrong passwords on a connection are verified, the next attempt closes it, and nothing is verified after that |
| `Server.SwapKeepsClients` | internal/gateway/server.go:219-233 | swapping keeps the connection in service open and closes the one superseded, once |
| `Server.NextKeeps` | internal/gateway/server.go:432-700 | every step of every session, every reload and every command of another replica keeps the invariant |
| `Server.RunKeeps` | internal/gateway/server.go:219-700 | the invariant holds after every run from the first configuration |
| `Session.NewAccountStore` | internal/gateway/auth.go:82-87 | the loop indexes the served accounts by name |
| `Session.NewPolicies` | internal/gateway/server.go:118-125 | the loop compiles one policy per served account, with the account's own exemption |
| `Session.NewSnapshot` | internal/gateway/server.go:61-127 | the snapshot built, its filters included, is the machine's |
| `Session.Relay.Reload` | internal/gateway/server.go:219-245 | a reload performs the machine's step: it swaps and closes, or leaves what is served as it was |
| `Session.Connection.constructor` | internal/gateway/server.go:348 | a session starts with the snapshot in service and no account |
| `Session.Connection.BeginAuth` | internal/gateway/server.go:432-454 | an attempt starts one verification, or is refused and closes past three failures |
| `Session.Connection.EndAuth` | internal/gateway/server.go:455-470 | it ends with the account when its own password verifies and it is enabled, or with a failure counted |
| `Session.Connection.StillAuthorized` | internal/gateway/server.go:505-520 | adopts the snapshot and account in service, or closes when the account is gone or disabled |
| `Session.Connection.Mail` | internal/gateway/server.go:472-489 | accepts exactly the senders the policy in service allows and records them |
| `Session.Connection.Rcpt` | internal/gateway/server.go:585-591 | adds a recipient for an authenticated session |
| `Session.Connection.Reset` | internal/gateway/server.go:847-850 | forgets the envelope and nothing else |
| `Session.Connection.BeginData` | internal/gateway/server.go:593-606 | DATA re-checks the account and adopts the configuration before a byte is read |
| `Session.Connection.Increment` | internal/gateway/ratelimit.go:239-248 | one increment reaches the shared store and brings its answer back, or the message is refused |
| `Session.Connection.Expire` | internal/gateway/ratelimit.go:249-256 | the expiry reaches the store, and the answer decides against the limit |
| `Session.Connection.Receive` | internal/gateway/server.go:615-651 | the spool holds the trace header and the client's bytes, and acceptance is the From check unless exempt |
| `Session.Connection.Take` | internal/gateway/server.go:615-651 | once DATA is counted the body is buffered and checked as the machine's step says, and comes back to be held exactly when it passes |
| `Session.Connection.Filter` | internal/gateway/server.go:653-668 | a held message meets the filters of the snapshot its DATA adopted |
| `Session.Connection.Hand` | internal/gateway/server.go:653-690 | what is handed over, and the domain it is signed for, are what the machine records |
| `System.System.Step` | internal/gateway/server.go:432-613 | one event on the objects is one step of the machine: reloads, commands of other replicas, sessions, increments |
| `System.System.Take` | internal/gateway/server.go:615-651 | a body's arrival on the objects is one step of the machine, and what is held stays in a spool of its own |
| `System.System.Forwards` | internal/gateway/server.go:653-700 | a held message's hand-over is one step of the machine, with anything in between |
| `System.System.Handle` | internal/gateway/server.go:219-700 | whatever happens to the objects amounts to a run of the machine |
| `System.Drive` | internal/gateway/server.go:202-700 | a server, its sessions and its stores driven through any sequence of stimuli end where the machine's run ends, and the messages handed over are those it records |
| `Guarantees.HistoryIsService` | internal/gateway/server.go:226 | the recorded history is the snapshots that were in service |
| `Guarantees.EverySession` | internal/gateway/auth.go:108-121 | what a run's events say of a session: when it connected, what it is having verified, and how it logged in |
| `Guarantees.EveryMessageIsAuthorized` | internal/gateway/server.go:432-700 | every relayed message: password sent and verified on its connection, sender allowed by the account's list at MAIL, account served and not disabled at DATA, From allowed by its list unless the account itself is exempt, an increment within the limit for each quota configured, signed for the domain the gate picks |
| `Guarantees.EveryMessageIsFiltered` | internal/gateway/server.go:653-668 | no filter of the snapshot adopted at DATA declined or dropped a relayed message, one that was not reached may fail open, and where they fail closed what left is the edits of all of them one after the other |
| `Guarantees.RevokedSendsNothing` | internal/gateway/server.go:491-520 | while an account stays removed or disabled, no DATA begun then is ever relayed |
| `Guarantees.RevokedIsClosed` | internal/gateway/server.go:505-514 | a session found revoked at MAIL or DATA is closed and forgets its envelope |
| `Guarantees.ClosedStays` | internal/gateway/server.go:509-513 | no step moves a closed session or relays anything for it |
| `Guarantees.VerificationsAreBounded` | internal/gateway/server.go:165-206 | password checks never exceed the slots, and at most three steps of a run begin one on the same connection |
| `Guarantees.StoreConnections` | internal/gateway/server.go:129-144 | the connection in service is open and was made to the store configured, and each superseded one was closed exactly once |
| `Guarantees.InServiceIsLastLoaded` | internal/gateway/server.go:216-226 | what is served is what the last successful reload asked for, and a failed one changes no snapshot, session or connection |
| `Guarantees.CurrentServes` | internal/gateway/server.go:92-125 | after every run, what is in service serves exactly the first well formed account of each name of its configuration |
| `Guarantees.CountingIsCheck` | internal/gateway/ratelimit.go:221-259 | the machine's counting steps, with other replicas in between, do what the limiter's check does: the same verdict and the same commands |
| `Guarantees.LostGivesUp` | internal/gateway/ratelimit.go:239-248 | an increment whose two commands did not both run refuses the message, and no expiry follows it |
| `Guarantees.AuthorizedGoesThrough` | internal/gateway/server.go:593-700 | from every reachable state, the password of an account that is configured, first of its name, well formed and not disabled, with a sender and From its list allows, room in its quotas and filters that pass the message, gets exactly that message relayed, with steps of other sessions and replicas and failing reloads in between |
| `Guarantees.SnapshotIsGranted` | internal/controller/gateway_controller.go:186-215 | the sending and signing rights of the account served come from grants that select the namespace of the account it was resolved from |
| `Guarantees.OwnerDecides` | internal/controller/access.go:65-95 | in every run over rendered configurations, sender, the one From header unless the listed account is exempt, and signed domain of a relayed message were allowed by an entry of a grant selecting the namespace of the account served, which the owner admits |
| `Submission.EverySessionIsTold` | internal/gateway/server.go:472-700 | in every run, the envelope and body a session holds are what its own connection sent since its MAIL, with no RSET in between |
| `Submission.EveryMessageIsSubmitted` | internal/gateway/server.go:472-700 | every relayed message has the sender of its connection's MAIL, the recipients named from then until DATA, and the bytes sent after it under the trace header of its account |
| `Fleet.ReplicaIsRelay` | internal/gateway/ratelimit.go:46-49 | each replica of a fleet is a run of the relay, with the others' commands in its stores |
| `Fleet.TicketsKeep` | internal/gateway/server.go:607-613 | each increment is made for one DATA and no DATA relays twice |
| `Fleet.FleetIsApart` | internal/gateway/ratelimit.go:269-285 | no two messages of a fleet were counted by the same increment |
| `Fleet.NamesAreServed` | internal/gateway/ratelimit.go:221-256 | a fleet's own commands carry names that can be served, so its logs do wherever commands from outside it do |
| `Fleet.FleetCountsAreExact` | internal/gateway/ratelimit.go:269-294 | so each answer a fleet gets is all and only what was added for that gateway, account, dimension and window |
| `Fleet.AdmittedWithinLimit` | internal/gateway/ratelimit.go:230-256 | the messages relayed by a fleet and counted in one window, under limits of at most a bound, add up to at most the bound |
| `Fleet.AdmittedInSpan` | internal/gateway/ratelimit.go:18-28 | those counted within one window's length of store time add up to at most three times the bound |
| `Fleet.AdmittedInClockSpan` | internal/gateway/ratelimit.go:291-294 | those counted within one window's length of the clocks that name the windows add up to at most twice the bound |
| `Fleet.NothingAfterOver` | internal/gateway/ratelimit.go:249-256 | once a counter is past a limit, no replica relays a message counted by it after that under that limit |
| `Fleet.QuotaIsKept` | internal/gateway/ratelimit.go:30-44 | for any number of replicas, messages relayed for an account in a window number at most messagesPerMinute and their recipients at most recipientsPerMinute |
| `Fleet.NothingEscapes` | internal/gateway/ratelimit.go:239-258 | every message relayed under a limiter was counted as a message where messages are limited, and with its recipients where those are |

## Left out

- Network, TLS, DNS, the Redis client, the milter wire protocol, DKIM cryptography and bcrypt: libraries; their answers are parameters.
- DKIM signing as a rewrite of the body: only the choice of key and the permission to use it are modelled, and a signing failure is the machine's stopped message.
- Upstream delivery in internal/gateway/relay.go: a message counts as handed over whether or not the upstream accepts it.
- Loading DKIM keys, Config.Validate, applyDefaults, certificates and SNI lookup: a reload that fails there is a failed reload.
- GatewayConfig: only the accounts of a configuration, not the rest of the rendered document; that the relay reads back the accounts that were written is taken for granted.
- Kubernetes objects, RBAC, status conditions, metrics, CLI, file watching: data copying or timers.
- Classification of refusals for metrics (resultFor) and the wording of SMTP replies: easy.
- Concurrent calls of Reload and closing the server: reloads are atomic steps, as one watcher makes them.
- Label selector syntax: a selector the API library cannot convert is `Invalid`, the rest are lists of requirements.
- Errors of seek and truncate, spools after Close, and writes after a read of a file-backed spool: outside the spool's stated contract.
- Not claimed, because the code does not do it: that rotating a password ends an open session, that the envelope sender is checked again at DATA, that every spool is closed, that a reload failing late closes the connection it had opened, and that a fail-open filter that breaks leaves the message untouched.
- Milter.RemoveRecipient: returns a new list; that the code reuses the array of the old one is not modelled, since the message owns its recipients.
- Milter.Run: a fail-open filter that breaks midway may leave its envelope edits behind, so with such faults nothing is stated about the message.
- Fleet.QuotaIsKept: that commands run in the order of the store's time, within the clock skew and latency, is a hypothesis on the store's log.
- Fleet.FleetCountsAreExact: commands that no relay of the fleet made are taken to carry names that can be served.
- Quota.QuotaHoldsIff: counters are natural numbers; the store's 64-bit overflow is not modelled.
- Fit.GreedyIsOptimal: that sizes add up is a hypothesis; marshalled YAML sizes are otherwise opaque.
- Guarantees.AuthorizedGoesThrough: a reload that succeeds between the session's steps is left out, since what it puts in service may rightly refuse the message.
