# LWRT, verified

LWRT is one binary that replaces a router's userspace. This project models the parts of it that hold algorithms
of their own and proves what they promise, for every input, every run and every interleaving:

- **Firewall compiler** (`netlink.dfy`, `nftables*.dfy`, `firewall*.dfy`, `packetpath.dfy`). A policy (LAN interface,
  masquerading, port forwards) becomes an nf_tables batch, written by an in-place builder that patches lengths
  backwards. The layers are bytes, attribute tree, commands, and an expression machine that runs the rules on a
  packet; the last theorems go from the policy through the emitted bytes to the fate of every IPv4 packet.
  `nftableswire.dfy` and the machine know the numbers of the format and not the compiler's names for them.
- **JSON** (`text.dfy`, `json*.dfy`). The printer and the recursive-descent parser over UTF-8 bytes: the round trip,
  what may stand in a printed text whoever reads it (`jsontext.dfy`), every other spelling the parser reads
  (`jsonreading.dfy`), and that broken-UTF-8 errors cannot occur.
- **Configuration** (`config.dfy`, `settings*.dfy`). The INI parser, and the line-preserving rewrite of the settings
  form, which reads the same text with a reader of its own: what the parser reads in any written line
  (`settingsreading.dfy`), where each update lands (`settingslanding.dfy`), what the parser finds afterwards, key by
  key, and when that is what was asked for (`settingsmeaning.dfy`), the characters written (`settingstext.dfy`), and
  inputs for which it is not what was asked for (`settingsfailures.dfy`).
- **SHA-256** (`sha256*.dfy`). The buffered state machine equals the one-shot definition of FIPS 180-4 for every
  way of cutting the message into chunks; the definition's functions bit by bit, its constants as roots of primes, and
  its known vector round by round.
- **ubus broker** (`ubus.dfy`, `ubusruns.dfy`). Every request takes the lock once, so the broker is a state machine;
  the theorems hold for every interleaving of any number of connections.
- **DHCP** (`dhcp*.dfy`). Packets, the same octet by octet (`dhcpwire.dfy`), the address pool, the server over every
  sequence of datagrams, and a client's exchange with it.
- **Flash writer** (`mtd.dfy`, `mtdmeaning.dfy`). Block arithmetic on 32-bit words over NOR flash, where a write can
  only clear bits.
- **Base64** (`base64.dfy`). The decoder with the overflowing accumulator, against RFC 4648.

Code that changes state in place is modelled by classes and methods with loops (`NlBuf`, `Parser`, `Hasher`, `Bus`,
`Pool`, `Flash`, and the draining loops of the settings form); each method's contract ties the new state to a
specification function, and the theorems are about those functions. Sizes and counters are mathematical integers
except where the code truncates or wraps: then the model does too (the 16- and 32-bit netlink lengths, the message
counter, the ids of routed calls and their passage through floats, the SHA-256 bit count, the address arithmetic of
the DHCP pool, the flash offsets, the base64 accumulator), with the wrap-around of a release build.

## Where a promise fails, and exactly when it holds

- The attribute walker returns what was built if and only if no 16-bit length was truncated
  (`Netlink.WalkRecoversIff`); for a whole rule set that means a LAN name of at most 65403 octets
  (`FirewallBatch.RulesetSizedIff`), and a reader of the batch recovers the rule set for exactly these names
  (`FirewallBatch.BatchIsReadBack`).
- The rewrite means "the old configuration overridden by the updates" if and only if every update's own place ends up
  with its value and every other place where an update prevails held that value already
  (`SettingsMeaning.RewriteAgreesWithParserIff`, for every text). Where an update lands, in the parser's sections, and
  whether the text assigns its key again behind it are read off the old text (`SettingsLanding.LandingOf`); for one
  update the condition is a single case distinction (`SettingsMeaning.OneUpdateAgreesIff`). Two ways to fail:
  - A header with a comment behind it is a header to the parser (`src/config.rs:22`) and not to the rewrite
    (`src/httpd.rs:352-353`): an update for one section lands in another
    (`SettingsFailures.CommentedHeaderMisplacesUpdate`; the smallest text is `MisplacedExample`).
  - The rewrite changes the first assignment of a key, the parser believes the last: the update is lost
    (`SettingsFailures.LaterDuplicateShadowsUpdate`; the smallest text is `ShadowedExample`).

  Where both readers take the same lines for headers only the second can happen
  (`SettingsMeaning.SameHeadersAgreeIff`), and without duplicates neither (`SettingsMeaning.UniqueKeysAreOverridden`).
- A value with a line break is written as it is. No parsed value holds a break (`SettingsFailures.NoParsedBreaks`), so
  a value that asks for one makes the rewrite disagree on every text (`SettingsFailures.BreakInValueNeverAgrees`).
  Breaks in the white space at the end of a value do no harm (`SettingsFailures.TrailingBreaksAreHarmless`). Behind a
  `#` the rest of a value is a comment only up to the break; the next line is read as a line of the file
  (`SettingsFailures.BreakBehindHashInjects`).
- A provider that replies under the number it was sent replies to its call if and only if the id is a 64-bit float, or
  the largest id (`UbusRuns.EchoRepliesIff`): all ids up to 2^53 are, and the echo of the next one answers the call
  before it (`UbusRuns.FirstInexactId`). Ids repeat if and only if more than 2^64 calls were routed
  (`UbusRuns.CallsAreAnsweredAtMostOnce`, and `UbusRuns.ManyCalls` for runs of any length).
- Leased addresses lie in the configured range if and only if the end of the range fits 32 bits
  (`DhcpRuns.InRangeIff`), and a requested address is honoured only if the end, too, is below 2^32
  (`DhcpPool.AskedIff`).
- A written image verifies for every previous content if and only if rounding it up to whole blocks does not
  overflow, or nothing but zeros lies beyond the part that was erased (`MtdMeaning.WriteVerifiesIff`).
  `MtdMeaning.OverflowLosesImage` is a device where it does overflow: the write exits with 0 and the image is not
  there. On a partition of whole blocks there is no overflow (`MtdMeaning.WriteSucceedsIff`).

Two numbers of `src/fw.rs` are not those of `linux/netfilter/nf_tables.h` as the Linux kernel has it: there
`NFT_META_IIFNAME` is 6 (11 at line 85), and the register and the base of a payload expression are the attributes 1
and 2 (2 and 1 at lines 88-89). The model keeps the code's numbers on both sides, so what is proved about packets is
about a reader that shares them.

Where code and comments differ the model follows the code: masquerading applies to every packet that reaches
postrouting, not only to LAN traffic on its way out (`src/fw.rs:451-456`); the DHCP option walker yields a truncated
option as far as it goes and stops after it (`src/dhcp.rs:48-53`, `src/dhcp.rs:67-69`); `NlBuf::bytes` is also called
with chunks that are not a multiple of four octets long (`src/nl.rs:56`, `src/fw.rs:207-211`). The builder's methods
therefore say what they do to the octets for any buffer, and what they do to the tree where the buffer is aligned.

## Model

| member | source | states |
|---|---|---|
| Netlink.NlBuf.Pad | src/nl.rs:48-52 | zeros up to the next multiple of four of the whole buffer, nothing else |
| Netlink.NlBuf.PutBytes | src/nl.rs:57-60 | the buffer grows by the octets; a tree it stands for grows by a chunk |
| Netlink.NlBuf.Attr | src/nl.rs:65-72 | the octets appended and padded, at any offset; at an aligned one the buffer stays the rendering of its tree, which grows by one attribute |
| Netlink.NlBuf.AttrU32Be | src/nl.rs:77-79 | the same for a big-endian word |
| Netlink.NlBuf.AttrStr | src/nl.rs:85-93 | the same for a NUL-terminated string |
| Netlink.NlBuf.BeginNested | src/nl.rs:97-102 | a header with an open length at any offset, which is the marker; at an aligned one it opens a nested scope of the tree |
| Netlink.NlBuf.EndNested | src/nl.rs:104-109 | any marker in range: the length is patched in place; the innermost one: the open scope becomes the encoding of the finished subtree |
| Netlink.NlBuf.BeginMessage | src/nl.rs:114-122 | a message header with an open length at any offset, which is the marker; at an aligned one it opens a message scope |
| Netlink.NlBuf.EndMessage | src/nl.rs:124-129 | the same as for a nested scope, with the 32-bit length |
| Netlink.StepRefines | src/nl.rs:48-129 | every single builder call keeps the buffer equal to the rendering of the tree of open scopes |
| Netlink.RunRefines | src/nl.rs:48-129 | the same over every legal, well-bracketed run of calls, at any nesting depth |
| Netlink.InPlaceBuildingEncodesTheTree | src/nl.rs:48-129 | a run that closes its scopes leaves exactly the recursive encoding of the tree it describes |
| Netlink.ItemsAreBuilt | src/nl.rs:97-129 | every tree is the tree of some well-bracketed run |
| Netlink.ForEachAttr | src/nl.rs:210-221 | on any octets the walk stays in bounds, terminates and visits the list `Attrs` defines by recursion |
| Netlink.WalkRecoversIff | src/nl.rs:210-221 | walking an encoded level returns its (type, payload) list in order iff no 16-bit length was truncated |
| NftablesRoundTrip.DataRoundTrip | src/fw.rs:207-293 | the attributes of each expression decode to that expression, when sized |
| NftablesRoundTrip.ExprRoundTrip | src/fw.rs:214-293 | an encoded expression element decodes to its expression |
| NftablesRoundTrip.CommandRoundTrip | src/fw.rs:296-338 | an encoded table, chain, rule or batch marker decodes to the command |
| NftablesRoundTrip.BatchRoundTrip | src/fw.rs:404-464 | for every list of sized commands the messages tile the buffer and decode to the same numbered commands |
| NftablesWire.ExprIsWire | src/fw.rs:207-293 | every expression element octet by octet: lengths, nested flag, attribute numbers, name, words most significant octet first |
| NftablesWire.MessageIsWire | src/fw.rs:196-346 | every message octet by octet: length, type and subsystem, flags, number, port, family, resource id, attributes, padding |
| NftablesWire.BatchIsWire | src/fw.rs:404-464 | the octets of every batch are those of its messages |
| NftablesWire.FlagsAreMasked | src/nl.rs:210-221 | the walker drops the two flags of a type and keeps the other fourteen bits |
| Firewall.ValueData | src/fw.rs:207-211 | appends a nested data value holding the octets |
| Firewall.VerdictExpr | src/fw.rs:224-233 | appends the immediate expression with the verdict |
| Firewall.ImmediateValue | src/fw.rs:236-243 | appends the immediate expression with the data |
| Firewall.MetaLoad | src/fw.rs:246-251 | appends the meta expression |
| Firewall.PayloadLoad | src/fw.rs:254-261 | appends the payload expression |
| Firewall.CmpExpr | src/fw.rs:264-272 | appends the comparison |
| Firewall.CtStateMatch | src/fw.rs:276-293 | appends the three expressions that test the conntrack state |
| Firewall.NewBaseChain | src/fw.rs:296-321 | appends one chain message and advances the number |
| Firewall.RuleCtAccept | src/fw.rs:341-346 | appends one message: the rule that accepts established and related |
| Firewall.RuleIifAccept | src/fw.rs:349-357 | appends one message: the rule that compares the NUL-terminated interface name |
| Firewall.RuleL4ProtoAccept | src/fw.rs:360-366 | appends one message: the rule that compares the protocol |
| Firewall.RuleDnat | src/fw.rs:369-386 | appends one message: the destination-NAT rule of a forward |
| Firewall.RuleForwardToDest | src/fw.rs:390-401 | appends one message: the rule that accepts packets addressed to a forward's target |
| Firewall.BuildRuleset | src/fw.rs:404-464 | for every policy the buffer is the encoding of the whole numbered rule set, whose octets are `NftablesWire.BatchIsWire` and whose hooks `FirewallBatch.CompiledHooks` |
| PacketPath.CtRule | src/fw.rs:276-346 | the conntrack rule accepts exactly established or related packets |
| PacketPath.NamePrefixIsEquality | src/fw.rs:349-357 | comparing the NUL-terminated prefix of the name register is exact equality of names (trailing NULs of the configured name aside) |
| PacketPath.IifRule | src/fw.rs:349-357 | the interface rule accepts exactly packets that arrive on the named interface |
| PacketPath.L4ProtoRule | src/fw.rs:360-366 | the protocol rule accepts exactly packets of the protocol |
| PacketPath.ForwardRule | src/fw.rs:390-401 | accepts exactly packets whose protocol, destination address and port are the target's |
| PacketPath.DnatRule | src/fw.rs:369-386 | in a chain of type nat, and only there, rewrites exactly the packets that match protocol and port, to the forward's target |
| FirewallMeaning.InputMeaning | src/fw.rs:296-437 | the base chains registered at the local-in hook, by priority, accept exactly established or related, `lo`, LAN and ICMP packets, drop all others, change none |
| FirewallMeaning.ForwardMeaning | src/fw.rs:296-444 | the forward hook accepts exactly replies, LAN ingress and packets addressed to some forward's target |
| FirewallMeaning.PreroutingMeaning | src/fw.rs:296-449 | the prerouting hook rewrites to the target of the first forward that selects the packet, and drops nothing |
| FirewallMeaning.PostroutingMeaning | src/fw.rs:296-456 | masquerading on means every packet at the postrouting hook is masqueraded |
| FirewallMeaning.RedirectedPacketsAreForwarded | src/fw.rs:439-449 | forwards compose: what prerouting redirects has the target's address and port and passes the forward chain |
| FirewallMeaning.ChainsOfRuleset | src/fw.rs:426-431 | the base chains at each hook with table, name, hook, priority, type and policy written out: one each at 0, 1, 2 and 4, none elsewhere |
| FirewallBatch.RulesetSizedIff | src/fw.rs:404-464 | no length field of the batch is truncated iff the LAN name has at most 65403 octets |
| FirewallWidths.ReadRulesAreNarrow | src/nl.rs:210-221 | whatever the bytes, no rule recovered by walking them (masquerading aside) holds more than a 16-bit length spans |
| FirewallBatch.BatchIsReadBack | src/fw.rs:404-464 | the bytes decode to the rule set, message numbers consecutive from 1, iff the LAN name has at most 65403 octets |
| FirewallBatch.BatchShape | src/fw.rs:404-464 | begin and end bracket the batch; 1 table, 4 chains, 6 + 2 * forwards + masquerade rules, nothing else |
| FirewallBatch.CompiledHooks | src/fw.rs:426-431 | the same for the commands a reader finds in the emitted bytes |
| FirewallBatch.CompiledInput | src/fw.rs:404-437 | end to end: the emitted bytes, decoded and run at hook 1, accept (1) exactly what the policy allows and drop (0) the rest |
| FirewallBatch.CompiledForward | src/fw.rs:439-456 | end to end for the hooks 0, 2 and 4 |
| Text.Rfc3629 | src/json.rs:279-293 | the UTF-8 examples of RFC 3629 |
| Text.FromUtf8Iff | src/json.rs:288 | octets decode to a string iff they are its UTF-8 encoding |
| Text.SpacesAre | src/config.rs:21 | what `trim` drops is the 25 code points of White_Space |
| JsonParser.WriteStr | src/json.rs:134-152 | the loop appends the quoted and escaped string, of which `JsonText.QuoteIsGrammatical` says what it may hold |
| JsonParser.WriteValue | src/json.rs:80-120 | the mutually recursive writers append the printed value |
| JsonParser.ToString | src/json.rs:74-78 | the text of a value: what it may hold is `JsonText.PrintIsVisible`, what it means the round trip |
| JsonText.QuoteIsGrammatical | src/json.rs:134-152 | a printed string is a quotation mark, characters and escapes of the grammar of RFC 8259 that mean the string, and a quotation mark |
| JsonText.PrintIsVisible | src/json.rs:80-152 | no character of a printed value is below U+0020 |
| JsonText.PrintIsOneLine | src/ubus.rs:91-98 | a frame is one line |
| JsonText.PrintedIntIsGrammatical | src/json.rs:85-90 | whole numbers print without leading zero, fraction or exponent |
| JsonText.PrintedString | src/json.rs:134-152 | every kind of escape, to the letter |
| JsonText.PrintedValue | src/json.rs:80-120 | values of every kind, to the letter, without white space |
| JsonParser.Parser.ParseString | src/json.rs:253-297 | string value and index are those of the specification on the remaining bytes |
| JsonParser.Parser.UnicodeEscape | src/json.rs:301-320 | the same for an escape, with its surrogate pairs and errors |
| JsonParser.Parser.ParseNumeral | src/json.rs:333-349 | the same for the greedy number scan |
| JsonParser.Parser.ParseArray | src/json.rs:227-251 | the same for an array |
| JsonParser.Parser.ParseObject | src/json.rs:196-225 | the same for an object |
| JsonParser.Parser.ParseValue | src/json.rs:174-185 | the mutually recursive parser terminates on every input and agrees with the specification |
| JsonParser.ParseDocument | src/json.rs:30-39 | parsing a document, trailing data included |
| JsonRoundTrip.IntRoundTrip | src/json.rs:85-90 | integers below 10^15 in magnitude print as one number token that parses back |
| JsonRoundTrip.NumberRoundTrip | src/json.rs:333-349 | the greedy scan stops exactly at the end of the printed number |
| JsonRoundTrip.SurrogatePairDecodes | src/json.rs:301-320 | a surrogate pair decodes to its code point, for every code point from U+10000 to U+10FFFF |
| JsonRoundTrip.StringRoundTrip | src/json.rs:134-152 | every string of Unicode scalar values survives quoting and parsing |
| JsonRoundTrip.ValueRoundTrip | src/json.rs:80-121 | a printed value followed by anything that does not continue a number parses to itself, leaving the rest |
| JsonRoundTrip.DocumentRoundTrip | src/json.rs:30-121 | `parse(to_string(v))` is `v`, key order and duplicate keys kept |
| JsonReading.EverySpellingIsRead | src/json.rs:253-331 | every string of the grammar is read as what it means: raw characters, the eight short escapes, hexadecimal digits of either case, surrogate pairs |
| JsonReading.OtherEscapesFail | src/json.rs:262-275 | a backslash before anything else is an error |
| JsonReading.WhiteIff | src/json.rs:160-168 | exactly space, tab, line feed and carriage return are skipped |
| JsonReading.SpacedReads | src/json.rs:174-251 | white space around any tokens of a value does not change what is read, nor where reading stops |
| JsonReading.SpacedDocumentIsRead | src/json.rs:30-39 | the same for a document, with white space before and behind it |
| JsonParser.ValueClean | src/json.rs:174-371 | on valid UTF-8 the index stays on character boundaries through every production |
| JsonParser.Utf8ErrorsAreUnreachable | src/json.rs:279-293 | neither UTF-8 error can be returned for a string |
| ConfigFile.Parse | src/config.rs:17-38 | the loop builds the configuration that folding the line readings defines |
| ConfigFile.ParsedValue | src/config.rs:17-54 | `get` after parsing is the last assignment of the key in its section |
| ConfigFile.ParsedSections | src/config.rs:25-28 | the sections are exactly those opened or assigned to |
| Settings.FlushSection | src/httpd.rs:332-342 | writes the section's updates in order and leaves the others, in order |
| Settings.CreateSections | src/httpd.rs:375-385 | writes every pending section once and leaves no update pending |
| Settings.ApplySettings | src/httpd.rs:347-387 | the draining loops compute the rewrite that the specification defines by recursion, and end with nothing pending; which updates it keeps is `SettingsMeaning.BlankSecretIsIgnored` and `UpdateIsFound` |
| SettingsReading.SplitIsAssigned | src/httpd.rs:322-329 | a line the rewrite may replace is an assignment of the same key and value to the parser |
| SettingsReading.UpdateReads | src/httpd.rs:362-364 | a written update, whatever its value, is read as one assignment, and what follows a break as lines of its own |
| SettingsReading.TextReads | src/httpd.rs:347-387 | what the parser reads in any rewritten text, line by line |
| SettingsLanding.RewriteMeans | src/httpd.rs:347-387 | for every text, key and section: the parser's value in the rewritten lines is the last write to the place, or the old value |
| SettingsLanding.RewriteSections | src/httpd.rs:347-387 | the sections of the rewritten lines are the old ones and those where updates land |
| SettingsLanding.WinnerIs | src/httpd.rs:347-387 | the last write to a place is that of the update which lands there with no line of the text and no other update behind it |
| SettingsMeaning.AppliedValue | src/httpd.rs:347-387 | the same from text to text: values and sections after the rewrite, for every text and all updates but blank secrets |
| SettingsMeaning.BlankSecretsAreKept | src/httpd.rs:344-348 | blank values for the five secret keys: the lines come back as they are and the parser finds what it found |
| SettingsMeaning.BlankSecretIsIgnored | src/httpd.rs:348 | a blank secret among other updates changes nothing of what they do |
| SettingsMeaning.UpdateIsFound | src/httpd.rs:347-387 | any other update that lands at home unshadowed is what the parser finds |
| SettingsText.RewriteIsText | src/httpd.rs:332-387 | the characters written: a replaced value behind its indent, an added key, a new section behind a blank line |
| SettingsMeaning.RewriteAgreesWithParserIff | src/httpd.rs:344-387 | for every text: the rewrite means the override iff each update settles its own place and spares every other |
| SettingsMeaning.OneUpdateAgreesIff | src/httpd.rs:344-387 | for one update: iff it lands in its own section unshadowed, or the places concerned hold the value already |
| SettingsMeaning.SameHeadersLandHome | src/httpd.rs:351-360 | where both readers see the same headers every update lands in its own section |
| SettingsMeaning.SameHeadersAgreeIff | src/httpd.rs:344-387 | there the rewrite means the override iff every shadowed update asks for the value already there |
| SettingsMeaning.UniqueKeysAreOverridden | src/httpd.rs:344-387 | sections opened once, keys assigned at most once: parsing the rewrite is the override of parsing the old text |
| SettingsMeaning.LinesAreConserved | src/httpd.rs:347-387 | old lines all kept in order, each replaced or verbatim; every effective update written exactly once |
| SettingsFailures.CommentedHeaderMisplacesUpdate | src/httpd.rs:351-360 | texts with a commented header: the update is found in the other section and not in its own |
| SettingsFailures.MisplacedExample | src/httpd.rs:351-360 | the smallest such text |
| SettingsFailures.LaterDuplicateShadowsUpdate | src/httpd.rs:361-368 | texts that assign the key twice: the parser still finds the second value |
| SettingsFailures.ShadowedExample | src/httpd.rs:361-368 | the smallest such text |
| SettingsFailures.NoParsedBreaks | src/config.rs:17-38 | no text parses to a value with a line break |
| SettingsFailures.BreakInValueNeverAgrees | src/httpd.rs:347-387 | a value that asks for a line break makes the rewrite disagree with the override on every text |
| SettingsFailures.TrailingBreaksAreHarmless | src/httpd.rs:362-364 | breaks in trailing white space change neither what is stored nor what else is read |
| SettingsFailures.BreakBehindHashInjects | src/httpd.rs:375-385 | a break behind a hash makes the rest of the value an assignment of its own |
| Sha256.Schedule | src/sha256.rs:92-103 | the loops fill the array with the recursive message schedule of FIPS 180-4 |
| Sha256Constants.ChoiceIsBitwise | src/sha256.rs:108 | choice takes the bits of y where x has ones, and of z where it has zeros |
| Sha256Constants.MajorityOfFirst | src/sha256.rs:115 | wherever two words agree, majority is what they agree on |
| Sha256Constants.MajorityOfOuter | src/sha256.rs:115 | the same for the first and the third |
| Sha256Constants.MajorityOfLast | src/sha256.rs:115 | the same for the second and the third |
| Sha256Constants.CubeRoots0 | src/sha256.rs:6-8 | the first sixteen round constants are the fractions of the cube roots of the primes from 2 to 53 |
| Sha256Constants.CubeRoots1 | src/sha256.rs:9-10 | the next sixteen, of the primes from 59 to 131 |
| Sha256Constants.CubeRoots2 | src/sha256.rs:11-12 | the next sixteen, of the primes from 137 to 223 |
| Sha256Constants.CubeRoots3 | src/sha256.rs:13-14 | the last sixteen, of the primes from 227 to 311 |
| Sha256Constants.InitialHash | src/sha256.rs:17-19 | the initial hash value holds the fractions of the square roots of the first eight primes |
| Sha256Constants.OctetsAreDigits | src/sha256.rs:84-87 | a word leaves as its octets, most significant first |
| Sha256.Mix | src/sha256.rs:105-125 | the 64 rounds on eight rotating variables, with choice and majority computed in place, are the standard's |
| Sha256.Rotations | src/sha256.rs:97-114 | the rotate instructions compute the shift-and-or functions of section 4.1.2 |
| Sha256.Hasher.Compress | src/sha256.rs:91-129 | the hash words become the compression of the block |
| Sha256.Hasher.TopUp | src/sha256.rs:43-60 | tops up a partial block, compressing it when full, without losing an octet |
| Sha256.Hasher.Update | src/sha256.rs:41-72 | whatever is fed, state and buffer stand for everything fed so far |
| Sha256.Hasher.Finish | src/sha256.rs:74-89 | the digest is the compression fold over the padded message, bit count modulo 2^64 |
| Sha256.ZeroCountIsLeast | src/sha256.rs:76-79 | the padding loop adds the fewest zeros that leave room for the length |
| Sha256.PadInjective | src/sha256.rs:74-81 | distinct messages stay distinct once padded, at any length, although the count of bits wraps |
| Sha256Vector.DigestOfAbc | src/sha256.rs:165-168 | the known vector: the digest of `abc`, through every word of the schedule and every round |
| Sha256.DigestOf | src/sha256.rs:133-137 | the one-shot digest is the defined one |
| Sha256.DigestOfChunks | src/sha256.rs:41-89 | feeding any list of chunks gives the digest of their concatenation |
| Ubus.Bus.OpenConn | src/ubus.rs:127-133 | a new connection gets the next number |
| Ubus.Bus.CloseConn | src/ubus.rs:150-154 | drops the connection, its subscription and its objects; pending calls stay |
| Ubus.Bus.HandleCall | src/ubus.rs:164-196 | built-ins answered at once, other calls routed to the first provider under a new id, which wraps at 2^64 and is sent as the nearest 64-bit float |
| Ubus.Bus.HandleReply | src/ubus.rs:197-205 | a pending id is removed and its caller written to; other ids do nothing |
| Ubus.Bus.HandleAdd | src/ubus.rs:206-221 | the path's old object goes, the new one comes last; an empty path is an error |
| Ubus.Bus.HandleSend | src/ubus.rs:222-232 | every listener gets the event, in whatever order the loop takes them, then the sender its status |
| Ubus.Bus.HandleRequest | src/ubus.rs:157-243 | one request is one step of the state machine |
| UbusRuns.StepAccounted | src/ubus.rs:164-205 | what one step keeps: ids issued in turn and, up to the wrap, pending or answered, never both |
| UbusRuns.CallsAreAnsweredAtMostOnce | src/ubus.rs:164-205 | over every run: ids are 1, 2, 3, ..., distinct iff at most 2^64 calls were routed; up to the wrap the disjoint union of pending and answered, each answered at most once; answers always go to an issuer |
| UbusRuns.FieldIsFirst | src/json.rs:43-48 | a field of a request is the value of the first pair with its key |
| UbusRuns.AnswerReachesCallerOnly | src/ubus.rs:197-205 | an answer is written to its caller if that is open, and to nobody else: status 0 and the data of the reply, or null |
| UbusRuns.CallReachesProviderOnly | src/ubus.rs:175-193 | a routed call is written to the open owner of the object, and to nobody else: number, method and arguments of the call |
| UbusRuns.EventReachesListenersOnly | src/ubus.rs:222-232 | an event with its name and data is written once to each listener, status 0 to the sender, nothing to anybody else |
| UbusRuns.SystemAnswersAtOnce | src/ubus.rs:169-174 | board and info of the system object are answered at once with their own reading |
| UbusRuns.RefusalsChangeNothing | src/ubus.rs:194-242 | empty paths, unknown methods and unknown operations get their negative status and reason, and change nothing |
| UbusRuns.BadLinesChangeNothing | src/ubus.rs:141-147 | so does a line that is no JSON |
| UbusRuns.ChangesAreConfirmed | src/ubus.rs:206-237 | adding and listening are confirmed with status 0 |
| UbusRuns.AddRegisters | src/ubus.rs:206-221 | the object added offers exactly the strings of its list of methods, for the connection that adds it; its path's old object is gone, the others stay |
| UbusRuns.ListShowsObjects | src/ubus.rs:245-262 | the list is the system object with board and info, then every registered object in order with its methods |
| UbusRuns.LateRepliesReachNobody | src/ubus.rs:125-155 | a closed connection's number never comes back, so later replies to it reach nobody |
| UbusRuns.PendingWaits | src/ubus.rs:197-205 | a pending call survives any interleaving without a reply to it |
| UbusRuns.ReplyCompletesCall | src/ubus.rs:164-205 | after any interleaving a reply delivers status 0 and its data to the caller that issued the call |
| UbusRuns.EchoRepliesIff | src/ubus.rs:182-201 | replying under the number received replies to that call iff the id is a float or the largest id |
| UbusRuns.FirstInexactId | src/ubus.rs:182-201 | ids up to 2^53 are exact; the echo of the next one answers the call before it |
| UbusRuns.ManyCalls | src/ubus.rs:164-196 | there are runs of any number of routed calls, so the counter can wrap |
| UbusRuns.RunLive | src/ubus.rs:125-155 | in every reachable state owners and listeners are open connections |
| UbusRuns.ProviderIsLookup | src/ubus.rs:176-181 | searching the object list is looking up the path in a map |
| UbusRuns.ListIsTable | src/ubus.rs:245-262 | the list holds every entry of the map once |
| UbusRuns.RunRefinesDirectory | src/ubus.rs:150-237 | over every run the object list refines a map from non-empty paths (last `add` wins, closing deletes the owner's entries), and the listeners are the open connections that asked |
| DhcpPacket.Options | src/dhcp.rs:53-73 | on any octets the walk stays in the packet, terminates and yields the list `OptionsOf` defines by recursion |
| DhcpPacket.WalkRecoversOptions | src/dhcp.rs:53-73 | for any options with pads between them, whatever follows END, the walker yields exactly the options |
| DhcpPacket.Parse | src/dhcp.rs:80-102 | the header fields and the options, later ones overriding earlier |
| DhcpPacket.HostNameIff | src/dhcp.rs:97 | the host name of a client is the string its option encodes, and none if the octets are no UTF-8 |
| DhcpPacket.ParseAck | src/dhcp.rs:442-460 | the settings of an ACK of the transaction, nothing otherwise |
| DhcpPacket.BuildReply | src/dhcp.rs:106-138 | the writes into the zeroed buffer and the pushes give the packet laid out field by field |
| DhcpPacket.BuildClient | src/dhcp.rs:406-440 | the same for a client's packet |
| DhcpPacket.ClientRoundTrip | src/dhcp.rs:80-102 | the server reads back what a client wrote, whatever follows in the buffer |
| DhcpPacket.ReplyRoundTrip | src/dhcp.rs:106-138 | a client reads back type, transaction and address of a reply |
| DhcpPacket.AckRecoversSettings | src/dhcp.rs:442-460 | mask, router and name server come back from an ACK of the transaction, and from no other reply |
| DhcpWire.ReplyIsWire | src/dhcp.rs:106-138 | a reply octet by octet: type, server, lease time, mask, router and name server under their option numbers |
| DhcpWire.ClientIsWire | src/dhcp.rs:406-440 | a client's packet octet by octet, broadcast flag and list of wanted options included |
| DhcpWire.ReplyOptionsAreRead | src/dhcp.rs:53-73 | a reader of options finds all six of a reply by number, whatever follows |
| DhcpWire.ParsedIs | src/dhcp.rs:80-102 | on any octets: fields at their offsets; type, wish and host name from the last options 53, 50 and 12 |
| DhcpWire.CutOffOption | src/dhcp.rs:62-70 | a value cut off by the end of the packet is read as far as it goes |
| DhcpPool.Pool.Assign | src/dhcp.rs:202-205 | map and index grow by the lease |
| DhcpPool.Pool.LeaseFor | src/dhcp.rs:181-201 | the address granted and the new leases |
| DhcpPool.Pool.Serve | src/dhcp.rs:274-323 | one turn of the server loop: leases, host names and reply for DISCOVER, REQUEST, anything else |
| DhcpPool.AskedIff | src/dhcp.rs:186-192 | the check on a requested address is membership in the pool, unless the end of the pool wraps: then it never holds |
| DhcpPool.WhatIsGranted | src/dhcp.rs:181-201 | a free address of the pool as asked, otherwise the lowest free one |
| DhcpPool.RefusedIffFull | src/dhcp.rs:181-201 | an unknown client is refused iff every address is held, iff as many clients as addresses hold leases |
| DhcpPool.LeasedSound | src/dhcp.rs:181-205 | one lease keeps addresses distinct, the index exact, addresses in the pool, and old leases unchanged |
| DhcpRuns.RunSound | src/dhcp.rs:274-323 | the same over every sequence of datagrams |
| DhcpRuns.InRangeIff | src/dhcp.rs:186-197 | over all runs every leased address lies in [start, start + count) iff that range fits 32 bits |
| DhcpRuns.NamesAreTheHolders | src/dhcp.rs:284-312 | over every run the name kept for a leased address is the last host name its holder told, and there is none if it told none |
| DhcpRuns.OthersAreIgnored | src/dhcp.rs:274-322 | datagrams that are no DISCOVER or REQUEST of a client change nothing and get no reply |
| DhcpRuns.NakIffFull | src/dhcp.rs:295-320 | a REQUEST is NAKed without an address iff the client is unknown and all addresses are held, otherwise ACKed with the address granted |
| DhcpRuns.ExchangeCompletes | src/dhcp.rs:284-390 | DISCOVER gets an OFFER, and after anything in between the REQUEST of it gets an ACK of the same address whose settings and lease time are the configured ones |
| Mtd.Flash.EraseRange | src/mtd.rs:91-110 | erases block after block up to the first failure; no addition of the loop overflows |
| Mtd.Flash.Write | src/mtd.rs:192-229 | exit status and contents: erase, then program |
| Mtd.Flash.Erase | src/mtd.rs:231-249 | exit status and contents of erasing the whole partition |
| Mtd.Flash.Verify | src/mtd.rs:251-281 | 0, 1 or 2: equal, too long, different |
| MtdMeaning.VerifyStatusIff | src/mtd.rs:251-281 | 1 iff the image is too long, 0 iff the flash begins with it, 2 iff an octet differs |
| MtdMeaning.ErasedFromExact | src/mtd.rs:91-110 | succeeds iff every block of the range can be erased; then exactly these blocks are erased |
| MtdMeaning.FailureErasesPrefix | src/mtd.rs:97-108 | a failure leaves the blocks before the failing one erased and all others as they were |
| MtdMeaning.WriteIsExact | src/mtd.rs:192-229 | image, then erased octets to the end of its last block, then the old contents; verify returns 0 |
| MtdMeaning.WriteSucceedsIff | src/mtd.rs:91-110 | on whole blocks: no overflow, and success iff the image fits and meets no bad block |
| MtdMeaning.WriteVerifiesIff | src/mtd.rs:93-95 | what is written always verifies iff the rounding does not overflow or only zeros lie beyond the erased part |
| MtdMeaning.OverflowLosesImage | src/mtd.rs:93-95 | a device and images for which the rounding overflows: exit status 0, nothing erased, and verification fails |
| MtdMeaning.EraseIsExact | src/mtd.rs:231-249 | erasing whole blocks succeeds iff none is bad, and leaves every octet erased |
| Base64.AlphabetIff | src/util.rs:6-15 | the value of a letter is its place in table 1 of RFC 4648, both ways |
| Base64.OrAdds | src/util.rs:25 | or-ing a sextet into the shifted accumulator adds it |
| Base64.LowBits | src/util.rs:25-29 | the octet pushed depends on the last two sextets only, whatever the accumulator lost |
| Base64.Decode | src/util.rs:5-33 | the loop yields the octets of the 24-bit groups, leftover bits dropped |
| Base64.DecodesIff | src/util.rs:19-24 | a text decodes iff, once trimmed, it holds only letters, `=` and ASCII white space, each written out |
| Base64.DecodeInvertsEncode | src/util.rs:5-33 | decoding undoes the RFC 4648 encoding of every octet string, padding and ASCII white space anywhere or nowhere, any Unicode white space around it |
| Base64.ShortVectors | src/util.rs:5-33 | test vectors of RFC 4648 |
| Base64.LastLetters | src/util.rs:11-12 | the last two letters are `+` and `/` |
| Base64.Hello | src/util.rs:39-40 | the known text decodes to `hello` |

## Left out

- Sockets, ioctls, netlink transport, `/proc`, files, threads and exit messages: effects. Their data come in as parameters or go out as results; the lock of the broker is the atomicity of a step.
- The kernel's numeric ABI, register byte order and conntrack: the machine of `packetpath.dfy` runs expressions on byte strings as the compiler writes them, NAT on the packet at hand only, IPv4 only.
- `parse_forward` and `parse_forwards` (`src/fw.rs:131-158`): splitting of one option string; forwards are given as values.
- Closures passed to `expr` and `new_rule` (`src/fw.rs:213-221`, `src/fw.rs:324-338`): each is a begin and an end method with the closure's body between them.
- `attr_u16_ne` and `attr_u32_le` (`src/nl.rs:74-82`): the same attribute with other payload octets, not used by the firewall.
- JsonRoundTrip.NumberRoundTrip: for numbers that are not integers below 10^15 it assumes that the host's float text is one number token that the host reads back; NaN, infinities and negative zero are not values of the model.
- Json error texts and byte positions: errors are constructors without their messages.
- SettingsMeaning.RewriteAgreesWithParserIff: asks for plain section names and keys (trimmed, without the characters that end a name) and one update for each place, as the form's fixed fields are, and for values in which nothing behind a line break is a header or an assignment. What the parser reads for other values is `SettingsReading.TextReads`; `SettingsFailures` says how they fail.
- Ubus.Bus.OpenConn: connection numbers are unbounded; the code's counter wraps after 2^64 connections.
- UbusRuns.ReplyCompletesCall: asks that fewer than 2^64 calls were routed; after that an id may be taken by a second caller.
- Ubus request lines: a line arrives as a parsed value or as the error text of the parser; how the host fills `board` and `info` is a parameter.
- The lease file and the lease times of `src/dhcp.rs:206-220`: a rendering of leases and names with the clock; a datagram is what the 1024-octet buffer received.
- The retry and timeout loops of the DHCP client, and applying its settings.
- Mtd.Flash.EraseRange: unlocking is advisory and not modelled; erase failures are a fixed set of bad blocks.
- Partition lookup, image reading and the ioctl numbers of `src/mtd.rs`.
- Hex output of digests, UTF-8 decoding inside Rust's standard library beyond `String::from_utf8`.
- HTML, sessions, WireGuard, DNS, packages, NTP, logging and init: shallow branching or effects.
