# A verified model of entity-core

`entity-core` is a deterministic kernel: from a definition, an instance, an operation and its arguments it
computes one decision, with no clock and no I/O. This project models that kernel in Dafny and proves what its
readers rely on: that a history can be rebuilt from its records or from its bare events, that an answer given
before the subject is loaded is the answer given after, that registering a definition makes evaluating it
total, and that the decimal arithmetic and the storage addresses underneath are exact.

Verify it with `dafny verify dfyconfig.toml`.

## How it is laid out

| files | what they model |
|---|---|
| `Prelude`, `Keys`, `Digits` | results, text primitives, sorted keys, digit vectors and powers of ten |
| `Number`, `Sum` | ordering and addition of JSON number texts, section 6 of RFC 8259 |
| `Observed`, `Decimals`, `Reading`, `Readings` | exact decimals, the texts that spell them, and the value a number is read as |
| `Timestamp`, `Instants` | instants, their order on the Gregorian calendar, and the texts that spell them |
| `Truth`, `Definition`, `Paths` | three-valued truth, definitions as data, references and path walks |
| `Evaluator`, `Operands`, `Folds` | the condition evaluator and the one that runs before loading, as functions and as the loops they run |
| `Positions`, `Walks`, `References`, `Templates` | what walks, references, templates and operands reach, said without running them |
| `Operators`, `Meanings`, `Connectives` | what operators, connectives and quantifiers mean |
| `Scopes`, `Agreement`, `Early`, `Actionable`, `Binders` | what registration admits and what that says about evaluation |
| `Values`, `Conformance`, `Registration` | schemas, defaults, conformance, and the rules a definition is registered under |
| `Identity`, `CanonicalForm`, `Addresses`, `Mirrors` | storage addresses, quoting as in section 7 of RFC 8259 |
| `Runtime`, `Drafts`, `Traces` | the sixteen steps of a decision, step 8 in place, and what an accepted decision passed |
| `Rules`, `Selection`, `Writes`, `Decisions` | what every step asks and leaves, and so when a decision is accepted and with what |
| `Safety`, `Strays`, `Increments` | what every run keeps, the branch that strays from its edge, increments |
| `EarlyAnswers`, `Lists` | deciding before the subject is loaded, and which addresses either side lists |
| `Replay`, `Replaying` | record replay, and the round trip of every run |
| `Folding`, `FoldSteps`, `Histories`, `Unsettled` | the event fold against the kernel, both ways |

The functions of `Evaluator`, `Paths`, `Values`, `Runtime` and `Identity` follow the code. What they come to is said
a second time in other terms: chains of steps, places in a value, first positions in a list, existence of a witness,
values of numbers. A theorem ending in `Means` or `Exactly` connects the two, both ways. The short ones are not in
the table below: `Connectives.AllMeans`, `Connectives.NotMeans`, `Connectives.EarlyNotMeans`,
`Connectives.ExistsMeans`, `Connectives.TruthyMeans`, `Connectives.QuantifiersAre`, `Meanings.ComparisonMeans`,
`Meanings.OthersCompare`, `Meanings.PositionIsFirst`, `Readings.WireMeans`, `Readings.LiteralMeans`,
`CanonicalForm.AddressMeans`, `Keys.KeyOrderMeans`, `Decisions.SubjectFirst`, `Decisions.ContinuingMeans`.

Code that changes state in place is a class or a method proved against a function: `Number.Integer`,
`Identity.Text`, `Drafts.Draft`, `Operands.Unobserved`, the digit-vector loops of `Sum`, the loops of `Observed`,
`Operands`, `Folds`, `Values` and `Replay`. Powers of ten are recursive functions (`Digits.Shift`, `Digits.Scale`), so
that a value is a real number and every proof about it is linear.

Binary64 rounding, shortest decimal printing and the map-key acceptors are opaque functions gathered in
`Reading.Doors`. Theorems that need something of them say so as `Reading.Prints`: a finite binary64 prints as
plain decimal text, different ones print differently, and whole ones lie in the 64-bit span.
`Mirrors.PrintsIsMet` shows that this can be met.

## What does not hold of the code, and what does

* The fold is documented to hand back only instances the kernel could have produced. It does not ask again for a
  readable identity, nor fill the defaults of recorded fields and arguments, which the kernel always does:
  `Unsettled.BlankIdentityFolds`, `Unsettled.UndefaultedFieldsFold` and `Unsettled.UndefaultedArgumentsFold` each
  give a definition and a history that folds and that no run writes. Those three are all there is: a run writes a
  history if and only if the fold accepts it and the history is settled, meaning that the identity is not blank,
  the created fields carry their defaults, and at every revision some operation that answers for it finds the
  recorded arguments carrying its own (`Histories.FoldAcceptsExactly`).
* Spelling an exact decimal and reading it back fails for the smallest 128-bit integer and for nothing else:
  `Observed.SpelledReadsBack`.
* Field order of instants is the order by second of day exactly when no leap second meets the second after it:
  `Timestamp.OrderBySeconds`, with a pair on which the two part in `Timestamp.LeapSecondExample`.
* An unobservable answer is documented to name what would have to be observed. Under `kernel/1` it does. Under
  the service rules it need not (`Actionable.ServiceUnknownMayNameNothing`): `Actionable.SilentLeavesNameNothing`
  says exactly which leaves answer with no address, and `Actionable.SpeakingIsActionable` that a condition which
  reaches none of them, and quantifies over nothing but collections, keeps the promise under any rules.
* A branch marked `wrong_state` may itself move, and is then taken only from states outside its own `from`:
  `Strays.WrongStateMoveStrays` is such a decision. A move starts at its branch's declared edge if and only if the
  branch is not that one: `Safety.MovesFollowEdges`.
* Before loading, an `all` or `any` lists no address of a part that waits for the subject, and a quantifier looks
  at every element where the later one stops once settled, so the two may list different addresses:
  `Lists.ListsMayDiffer`. `EarlyAnswers.SameVerdict` therefore compares the refusal and its outcome. The lists are
  one too wherever the selectors read only what is known before loading and no early stop can be seen
  (`Lists.KnownIsAlike`, `Lists.SameRefusal`).

## Model

| member | source | states |
|---|---|---|
| `Number.Compare` | crates/entity-core/src/number.rs:8-55 | Comparing two number texts answers the order of their mathematical values, whatever their spelling and however long their exponents. |
| `Number.FormOrderIsNumeric` | crates/entity-core/src/number.rs:8-55 | Zeros, then signs, then the place of the first digit, then padded digits decide the order of the values. |
| `Number.Integer.Parse` | crates/entity-core/src/number.rs:259-271 | A signed digit text becomes a normalized big integer of the same value. |
| `Number.Integer.Add` | crates/entity-core/src/number.rs:279-311 | In-place addition of signed big integers leaves a normalized integer worth the sum of the two values. |
| `Number.Integer.AddMagnitude` | crates/entity-core/src/number.rs:279-297 | The carry loop adds two magnitudes, with no zero left on top. |
| `Number.Integer.SubtractMagnitude` | crates/entity-core/src/number.rs:298-311 | The borrow loop takes a smaller magnitude from a larger one. |
| `Number.MagnitudeOrderIsNumeric` | crates/entity-core/src/number.rs:273-277 | Longer first, then the most significant digit first, is the order of the magnitudes. |
| `Number.Integer.Compare` | crates/entity-core/src/number.rs:313-326 | Comparing two big integers answers the order of their values. |
| `Number.Decimal.Parse` | crates/entity-core/src/number.rs:233-255 | The parsed form holds the stripped digits and the exact place of the first one, as a big integer. |
| `Sum.Normalize` | crates/entity-core/src/number.rs:108-126 | Draining and truncating a digit vector yields the normal form, or none where its exponent leaves 64 bits. |
| `Sum.AddMagnitudes` | crates/entity-core/src/number.rs:204-215 | Adding two equal-width digit vectors with carry gives their sum. |
| `Sum.SubtractMagnitudes` | crates/entity-core/src/number.rs:217-231 | Subtracting with borrow gives the difference. |
| `Sum.Plus` | crates/entity-core/src/number.rs:150-174 | The aligned digit-vector sum is the normal form of the integer sum in units of the lowest place. |
| `Sum.Add` | crates/entity-core/src/number.rs:72-85 | The digit-vector addition computes the specified sum text or its absence. |
| `Sum.SumIsExact` | crates/entity-core/src/number.rs:72-85 | Whatever sum is answered is a number text worth exactly the sum of the operands. |
| `Sum.SumDefined` | crates/entity-core/src/number.rs:72-174 | A sum is answered if and only if both exponents fit 64 bits and the operands span at most 1,024 places, units included. |
| `Sum.SumIsCanonical` | crates/entity-core/src/number.rs:72-200 | Sums of equal value are one text, whatever the operands and their spelling. |
| `Sum.SumShape` | crates/entity-core/src/number.rs:176-200 | A sum's text has no exponent and no trailing fractional zero, and zero is written `0`. |
| `Sum.SumCommutes` | crates/entity-core/src/number.rs:72-174 | Addition does not depend on the order of its operands, absence included. |
| `Sum.SpelledRoundTrip` | crates/entity-core/src/number.rs:87-200 | Reading a spelled sum gives back exactly the form it was spelled from. |
| `Observed.ExactOfDecimalText` | crates/entity-core/src/observed.rs:212-282 | The scaling loops, their scale taken in 64 bits, compute the pair as if that subtraction could not wrap, or its absence. |
| `Observed.SixtyFourBitsSuffice` | crates/entity-core/src/observed.rs:260-265 | For every text up to 2^62 characters, taking the fraction's length less the exponent in 64 bits reads what exact integers read. |
| `Decimals.CutMeans` | crates/entity-core/src/observed.rs:212-258 | A text is cut into exactly the parts it is spelled from: an optional sign, digits, an optional point with digits, an optional exponent in 64 bits. |
| `Decimals.ReadsExactly` | crates/entity-core/src/observed.rs:212-282 | A text is read as a pair if and only if it is so spelled, its digits fit 128 bits, and the pair is the normalized one of its value with at most 255 places. |
| `Observed.ReadKeepsValue` | crates/entity-core/src/observed.rs:212-282 | Reading an authored decimal keeps its value and yields the normalized pair, in range. |
| `Observed.NormalizedUnique` | crates/entity-core/src/observed.rs:212-282 | One value has one normalized pair. |
| `Observed.ExactTextValue` | crates/entity-core/src/observed.rs:289-301 | A pair's text is a JSON number with exactly the pair's value. |
| `Observed.ExactTextInjective` | crates/entity-core/src/observed.rs:289-301 | Normalized pairs with one text are one pair. |
| `Observed.SpelledReadsBack` | crates/entity-core/src/observed.rs:212-301 | A normalized pair in range is read back from its text if and only if its units are not the smallest 128-bit integer. |
| `Observed.SmallestUnitsDoNotReadBack` | crates/entity-core/src/observed.rs:212-301 | The pair whose text is not read back. |
| `Observed.ReadSpellsBack` | crates/entity-core/src/observed.rs:212-301 | What was read is spelled as a text that reads as the same pair. |
| `Observed.ExactCompareIsNumeric` | crates/entity-core/src/observed.rs:306-345 | The unscaled comparison of two exact decimals is the order of their values. |
| `Observed.ExactCompareIsCrossMultiplied` | crates/entity-core/src/observed.rs:306-345 | It equals the cross-multiplied order, for all units and scales. |
| `Reading.NumericTextInjective` | crates/entity-core/src/observed.rs:72-205 | Two observable numbers share a canonical text if and only if they are read as one value. |
| `Readings.DoorsAgree` | crates/entity-core/src/observed.rs:72-131 | An integer within 64 bits is one value through both doors. |
| `Timestamp.Nanoseconds` | crates/entity-core/src/timestamp.rs:64-147 | The loop scales a written fraction to nine digits, below one thousand million. |
| `Timestamp.EqualFractionsReadEqual` | crates/entity-core/src/timestamp.rs:64-147 | Fractions of different written length read as one count if and only if they are one fraction. |
| `Timestamp.DatesByDayNumber` | crates/entity-core/src/timestamp.rs:48-160 | Year, month and day order dates exactly as their day numbers do. |
| `Timestamp.OrderIsChronological` | crates/entity-core/src/timestamp.rs:48-160 | Field order is the order by day, minute, second and nanosecond, leap seconds included. |
| `Timestamp.OrderBySeconds` | crates/entity-core/src/timestamp.rs:48-160 | It is the order by second of day if and only if no leap second meets the second after it. |
| `Timestamp.ReadInstantsOrder` | crates/entity-core/src/timestamp.rs:64-147 | Any two texts that are read compare by day number, then minute, second and nanosecond, leap seconds included. |
| `Timestamp.CalendarRepeats` | crates/entity-core/src/timestamp.rs:149-158 | Day numbers count the Gregorian calendar: 400 years later is 146,097 days later. |
| `Instants.ParseMeans` | crates/entity-core/src/timestamp.rs:64-172 | A text is read as an instant if and only if, white space aside, it spells it: ten characters of date, alone or with a mark, a clock, a fraction of up to nine digits and a zone mark. |
| `Operators.OrderingMirrors` | crates/entity-core/src/runtime.rs:2686-2754 | `gt`/`lt`, `gte`/`lte` and `after`/`before` mirror each other on any operands. |
| `Operators.CompareIsCoherent` | crates/entity-core/src/runtime.rs:2507-2559 | `compare` with the mirrored operator and swapped operands is the same question, and with the opposite operator the negated one; unknown stays unknown. |
| `Operators.ScalesAgree` | crates/entity-core/src/runtime.rs:2579-2601 | A scale order is answered if and only if some scale holds both texts and every one that does agrees on it. |
| `Operators.EqualReflexive` | crates/entity-core/src/runtime.rs:2609-2641 | A value equals itself at every depth, numbers by value. |
| `Operators.EqualSymmetric` | crates/entity-core/src/runtime.rs:2609-2641 | Equality is symmetric at every depth. |
| `Operators.EqualTransitive` | crates/entity-core/src/runtime.rs:2609-2641 | And transitive. |
| `Meanings.EqualMeans` | crates/entity-core/src/runtime.rs:2609-2641 | Two values are equal if and only if they are one once every number in them is what it is worth. |
| `Meanings.ObservedMeans` | crates/entity-core/src/runtime.rs:2643-2684 | Under the service rules they are equal if and only if at every place the nodes tally: one reading through their own doors, one length, one set of keys. |
| `Meanings.PairMeans` | crates/entity-core/src/runtime.rs:2252-2334 | `before` and `after` are answered if and only if both operands spell instants, by day, minute, second and nanosecond; the numeric operators by the values of two numbers; equality, membership, containment, prefix and suffix by values, elements, members and cuts of a text; and the references that could not be read are named. |
| `Meanings.ConditionMeans` | crates/entity-core/src/runtime.rs:2252-2334 | So is the condition of two operands, unknown where one is missing, with every address of both. |
| `Meanings.NumbersCompare` | crates/entity-core/src/runtime.rs:2507-2532 | `compare` of numbers is the order of their exact values, or of their binary64 where one has none, and unknown where one cannot be read. |
| `Meanings.TextsCompare` | crates/entity-core/src/runtime.rs:2533-2542 | `compare` of texts is sameness, or the places on the declared scales, unknown unless all that hold both agree. |
| `Connectives.ConnectiveMeans` | crates/entity-core/src/runtime.rs:2196-2215 | A connective is answered if and only if every part is: settled by one part, unknown by one unknown, with exactly the parts' addresses. |
| `Connectives.QuantifierMeans` | crates/entity-core/src/runtime.rs:2413-2457 | A quantifier asks its body of every element of a list or mapping, and is unknown over anything else or nothing observed. |
| `Connectives.CollectionMeans` | crates/entity-core/src/runtime.rs:2424-2432 | The elements are a list's in order, or a mapping's values in the order of their keys. |
| `Connectives.EarlyConnectiveMeans` | crates/entity-core/src/runtime.rs:2051-2088 | Before loading one settling part settles, short of that one waiting part makes the whole wait. |
| `Connectives.EarlyQuantifierMeans` | crates/entity-core/src/runtime.rs:2090-2128 | Before loading a quantifier that need not wait folds the answer of every element. |
| `Connectives.EarlyQuantifierWaits` | crates/entity-core/src/runtime.rs:2090-2128 | It waits where its collection reads the subject, and is unknown over nothing observed or no collection. |
| `Connectives.EarlyLeafMeans` | crates/entity-core/src/runtime.rs:2130-2188 | A leaf waits if and only if some reference in its operands reads the subject. |
| `Operands.FindOperand` | crates/entity-core/src/runtime.rs:2779-2825 | Resolving an operand in order, past every gap, with the address set passed along finds the specified value and adds exactly the specified addresses. |
| `Operands.FindElements` | crates/entity-core/src/runtime.rs:2798-2809 | So does the loop over a list. |
| `Operands.FindMembers` | crates/entity-core/src/runtime.rs:2810-2822 | And the loop over a mapping, in key order. |
| `Folds.EvaluateCondition` | crates/entity-core/src/runtime.rs:2190-2334 | The evaluator with its address set passed along answers the specified truth and adds exactly the specified addresses; `exists` keeps its own. |
| `Folds.EvaluateConnective` | crates/entity-core/src/runtime.rs:2196-2215 | The left fold of `all` and `any`, every operand evaluated, is the specified answer. |
| `Folds.FoldElements` | crates/entity-core/src/runtime.rs:2413-2457 | The quantifier loop, left as soon as it is settled, is the specified answer. |
| `Folds.EvaluateBeforeLoad` | crates/entity-core/src/runtime.rs:2051-2088 | The partial evaluator's loops answer what its specification says. |
| `Folds.FoldBeforeLoad` | crates/entity-core/src/runtime.rs:2090-2128 | The partial quantifier loop, never left early, is the specified answer. |
| `Folds.BreakKeepsTruth` | crates/entity-core/src/runtime.rs:2413-2457 | Stopping early gives the truth the whole Kleene fold gives. |
| `Folds.FoldByMembership` | crates/entity-core/src/truth.rs:42-62 | That truth depends only on which truths occur, not on their order. |
| `Agreement.AcceptedReads` | crates/entity-core/src/validation.rs:1297-1445 | A condition accepted in its scope reads only bound names and the roots the scope allows, at any nesting. |
| `Agreement.AcceptedIsTotal` | crates/entity-core/src/validation.rs:1615-1718 | With an identity at hand, an accepted condition is always answered, for any fields and arguments. |
| `Agreement.EvaluateRefines` | crates/entity-core/src/runtime.rs:2190-2334 | Contexts that agree on what a condition reads answer it alike, addresses included. |
| `Agreement.TemplateRefines` | crates/entity-core/src/runtime.rs:3060-3091 | The same for templates. |
| `Early.EarlyAgrees` | crates/entity-core/src/runtime.rs:2022-2188 | For every registered selector the partial evaluator never errors, and what it knows is what the full one answers for every subject. |
| `Actionable.UnknownIsActionable` | crates/entity-core/src/runtime.rs:2190-2334 | Under `kernel/1` an `Unknown` answer to an accepted condition leaves at least one address to observe. |
| `Actionable.ServiceUnknownMayNameNothing` | crates/entity-core/src/runtime.rs:2190-2334 | Under the service rules it need not. |
| `Actionable.SilentLeavesNameNothing` | crates/entity-core/src/runtime.rs:2217-2236 | An accepted leaf answers `Unknown` with no address if and only if it asks the truth of a value that has none, or compares two values that do not compare. |
| `Actionable.SpeakingIsActionable` | crates/entity-core/src/runtime.rs:2190-2334 | Under any semantics, a condition that reaches no such leaf and walks only collections names an address whenever it answers `Unknown`. |
| `Paths.PlainWalk` | crates/entity-core/src/runtime.rs:3226-3290 | Without the service rules a walk consults no declaration. |
| `Walks.WalkMeans` | crates/entity-core/src/runtime.rs:3226-3340 | A walk answers a value if and only if a chain of single steps along its path ends there: to the element an index names, a member, a size or a text's length. |
| `Walks.ElementReached` | crates/entity-core/src/runtime.rs:3314-3340 | In an untyped or declared list the usual spelling of `i` reaches element `i` if and only if there is one, and `count` the number of elements. |
| `Walks.IndexMeans` | crates/entity-core/src/runtime.rs:3329-3336 | A segment names an index by its usual spelling or by digits behind a plus. |
| `Walks.LookUpMeans` | crates/entity-core/src/runtime.rs:3179-3197 | A root path starts at a named member and goes on under its declaration. |
| `References.SpelledExactly` | crates/entity-core/src/runtime.rs:3093-3163 | A reference is cut at its points into exactly its name and its path. |
| `References.ResolveMeans` | crates/entity-core/src/runtime.rs:3093-3163 | A reference resolves to exactly the value it denotes — the innermost binder's element, else the root it names, or what the path finds there — and fails if and only if it says nothing. |
| `Templates.TemplateMeans` | crates/entity-core/src/runtime.rs:3060-3091 | A template resolves to exactly the value that has, at every place, what was there, with each reference replaced by what it denotes. |
| `Templates.TemplateFails` | crates/entity-core/src/runtime.rs:3060-3091 | It fails if and only if some reference in it denotes nothing. |
| `Templates.OperandMeans` | crates/entity-core/src/runtime.rs:2779-2825 | An operand resolves so too, null being nothing, and names exactly the references in it that observe nothing. |
| `Templates.OperandFailsExactly` | crates/entity-core/src/runtime.rs:2779-2825 | It fails if and only if some reference in it says nothing. |
| `Binders.BinderWalkRefines` | crates/entity-core/src/runtime.rs:3198-3340 | A binder's typed walk over a conforming value is the untyped walk, except where that finds nothing and the typed one answers the length of a text held at the path's prefix. |
| `Values.ApplyDefaults` | crates/entity-core/src/validation.rs:2704-2725 | The member loop fills one map in place to exactly the specified object. |
| `Values.ApplyNestedDefaults` | crates/entity-core/src/validation.rs:2727-2740 | And the nested walk one value. |
| `Values.FillIdempotent` | crates/entity-core/src/validation.rs:2704-2740 | Defaulting twice fills nothing more, at every depth. |
| `Values.FillMembersKeeps` | crates/entity-core/src/validation.rs:2704-2740 | Defaulting never overwrites a supplied leaf. |
| `Values.FillValid` | crates/entity-core/src/validation.rs:2704-2995 | Defaulting a valid object under a declared schema leaves it valid. |
| `Values.OmittedDefaults` | crates/entity-core/src/runtime.rs:1906-1930 | Leaving out defaulted members normalizes, to the object with the defaults. |
| `Values.PresenceIsTheCallers` | crates/entity-core/src/validation.rs:795-851 | For every admitted conditional argument, a value is found there after normalization if and only if the caller sent one, and it is what was sent with its own defaults. |
| `Values.SuppliedExactly` | crates/entity-core/src/runtime.rs:1865-1883 | An argument is present with a value if and only if a chain of members, named by the pieces between its points, leads from the arguments to it. |
| `Values.NormalizeIdempotent` | crates/entity-core/src/runtime.rs:1906-1930 | What was normalized normalizes to itself. |
| `Conformance.ConformsMeans` | crates/entity-core/src/validation.rs:2846-2995 | A value conforms if and only if every node of it, at any depth, fits what declares that node: lengths, bounds by value, ranges, required and closed members, keys, tags. |
| `Conformance.ValidMeans` | crates/entity-core/src/validation.rs:2742-2845 | An object is valid under a schema if and only if every node of it fits what the schema declares there. |
| `Identity.WriteCanonical` | crates/entity-core/src/identity.rs:160-208 | The writer appends exactly the canonical text, or reports the first error met. |
| `Identity.EscapedDecodes` | crates/entity-core/src/identity.rs:210-214 | A quoted text, and whatever follows it, is read back uniquely. |
| `CanonicalForm.EscapedReadsBack` | crates/entity-core/src/identity.rs:210-214 | Every text is read back from its escaped form by the rules of section 7 of RFC 8259. |
| `CanonicalForm.CanonicalMeans` | crates/entity-core/src/identity.rs:154-208 | A value's canonical text is the one that spells it: words, observed numbers, quoted texts, elements in order and members by key between commas and brackets. |
| `CanonicalForm.Unspellable` | crates/entity-core/src/identity.rs:154-208 | It has none if and only if a null or an unobservable number stands somewhere in it. |
| `Addresses.Decodes` | crates/entity-core/src/identity.rs:154-208 | A canonical text, and whatever follows it, is read back uniquely at every depth. |
| `Addresses.AddressInjective` | crates/entity-core/src/identity.rs:102-208 | Two values of any addressable kinds share an address if and only if they are equal up to member order and observed numeric value. |
| `Addresses.AddressNotBlank` | crates/entity-core/src/identity.rs:102-134 | No address is blank. |
| `Mirrors.AddressTotal` | crates/entity-core/src/validation.rs:1074-1119 | Every value that conforms to a declaration without `json` in it has an address. |
| `Mirrors.DerivationTotal` | crates/entity-core/src/runtime.rs:1787-1826 | Under a registered identity every schema-valid creation derives an address. |
| `Drafts.Draft.Assign` | crates/entity-core/src/runtime.rs:1376-1387 | The `set` loop writes all of its entries, or reports the error of the first failing field. |
| `Drafts.Draft.CopyPresent` | crates/entity-core/src/runtime.rs:1885-1895 | The copying loop writes exactly the members whose mapped argument the caller sent, with what was sent, and leaves the others. |
| `Drafts.Draft.Fulfill` | crates/entity-core/src/runtime.rs:1389-1452 | The host's actions are applied exactly where they match the requirements, and refused by name otherwise. |
| `Drafts.WriteFields` | crates/entity-core/src/runtime.rs:1369-1462 | Step 8 run in place is the specified step 8. |
| `Drafts.WritesCommute` | crates/entity-core/src/runtime.rs:1369-1462 | Writes of disjoint fields are one simultaneous update, in all six orders. |
| `Drafts.DeltaOfChanges` | crates/entity-core/src/runtime.rs:2909-2916 | What changed and what was dropped are disjoint and, laid over the fields before, give the fields after. |
| `Writes.AssignedMeans` | crates/entity-core/src/runtime.rs:2938-3058 | A `set` entry puts the value its template renders, the sum its increment adds up to, or drops its field, as its shape says. |
| `Writes.StepEightMeans` | crates/entity-core/src/runtime.rs:1369-1462 | Step 8 succeeds with exactly the fields that are, one by one, what the host set or removed, else the argument sent, else what the entry writes, else what they were. |
| `Writes.EventsMean` | crates/entity-core/src/runtime.rs:2869-2907 | The events are one for each template in order, each with its type, the move, the delta, the arguments and its rendered payload. |
| `Writes.ResponseMeans` | crates/entity-core/src/runtime.rs:1835-1863 | The response is its rendered templates with the arguments sent, valid unless only recomputed. |
| `Rules.InvariantsMean` | crates/entity-core/src/runtime.rs:1973-1992 | Invariants are accepted if and only if every one is answered true. |
| `Rules.FirstInvariantAnswers` | crates/entity-core/src/runtime.rs:1973-1992 | Otherwise the first that is not gives the error: its failure, that it is broken, or that it is unobservable with its addresses. |
| `Rules.PreconditionsMean` | crates/entity-core/src/runtime.rs:1938-1971 | Preconditions likewise. |
| `Rules.FirstPreconditionAnswers` | crates/entity-core/src/runtime.rs:1938-1971 | And their first refusal. |
| `Selection.SelectsExactly` | crates/entity-core/src/runtime.rs:1652-1687 | The branch selected is the first not marked wrong-state whose state guard is met and whose selector is true, every branch before it guarded against or false. |
| `Selection.SelectionMeans` | crates/entity-core/src/runtime.rs:1652-1687 | At the first branch not passed over selection answers it, its failure, or that it is unobservable. |
| `Selection.AdmissionMeans` | crates/entity-core/src/runtime.rs:1715-1750 | Which branch is admitted, when the move is invalid, and when it is unspecified. |
| `Selection.RunsExactly` | crates/entity-core/src/runtime.rs:1300-1368 | The branch an operation runs is the first declared transition's, or the admitted one of the branch taken first. |
| `Decisions.AcceptsExactly` | crates/entity-core/src/runtime.rs:1279-1562 | An operation is accepted if and only if subject, arguments, branch, preconditions, fields, schema, identity, invariants, events, response and record are each as declared, and with exactly that decision. |
| `Decisions.DeclinesExactly` | crates/entity-core/src/runtime.rs:1279-1562 | It is declined by exactly the refusing branch that runs. |
| `Decisions.RefusedInOrder` | crates/entity-core/src/runtime.rs:1330-1562 | Then preconditions, writes, schema, revision, identity and invariants, each by its first failure. |
| `Decisions.CreatesExactly` | crates/entity-core/src/runtime.rs:754-1059 | A creation under a supplied identity is accepted if and only if the identity is not blank and fields, identity, invariants, events, response and record are as declared. |
| `Decisions.DerivesExactly` | crates/entity-core/src/runtime.rs:868-1059 | Without one, the identity is the one its fields derive. |
| `Safety.DeltaConserved` | crates/entity-core/src/runtime.rs:1279-1562 | The same for every accepted operation of a registered definition, and every event carries exactly that delta. |
| `Safety.DecideIsSafe` | crates/entity-core/src/runtime.rs:1279-1562 | Every accepted operation keeps an instance valid, every invariant answered true, its state declared, its identity field's address its own, and counts one revision. |
| `Safety.RunIsSafe` | crates/entity-core/src/runtime.rs:754-1562 | So does every instance of every run, with one identity throughout and a revision that counts the decisions. |
| `Safety.MovesFollowEdges` | crates/entity-core/src/runtime.rs:1715-1750 | A `kernel/1` move follows a declared transition; a branch that moves starts at its declared edge if and only if it is not the wrong-state branch; any other branch stays. |
| `Strays.WrongStateMoveStrays` | crates/entity-core/src/runtime.rs:1715-1750 | A registered definition whose wrong-state branch is accepted and moves from outside its `from`. |
| `Increments.IncrementProgress` | crates/entity-core/src/runtime.rs:2938-3058 | A registered increment on a valid instance and normalized arguments writes the exact sum or answers overflow: an integer if and only if the sum leaves its range, any other number if and only if the operands cannot be added or the service rules cannot observe their sum. |
| `Increments.MembersWalk` | crates/entity-core/src/validation.rs:2307-2362 | A path registration finds numeric reaches a number in every conforming value. |
| `Increments.NoIncrementIsStuck` | crates/entity-core/src/validation.rs:2133-2362 | No increment of an admitted branch on a safe instance finds an operand missing or mistyped. |
| `EarlyAnswers.EarlyAnswersHold` | crates/entity-core/src/runtime.rs:1137-1224 | What is refused before loading is refused alike after loading, for every matching subject and any host actions. |
| `Selection.EarlyRefuses` | crates/entity-core/src/runtime.rs:1137-1224 | A refusal is answered before loading if and only if every branch before the refusing one is wrong-state or unguarded and known false, and that one is unguarded and certain. |
| `Selection.EarlyLoads` | crates/entity-core/src/runtime.rs:1137-1224 | Loading is answered if and only if there are no branches, or the first not ruled out waits for the subject or is certain and accepts. |
| `Selection.EarlyFails` | crates/entity-core/src/runtime.rs:1137-1224 | And an error if and only if nothing may be decided, every branch is ruled out, or the first that is not cannot be answered for any subject. |
| `EarlyAnswers.ContinuingIsDeciding` | crates/entity-core/src/runtime.rs:383-477 | Preparing, loading and continuing is the one-shot decision. |
| `EarlyAnswers.AskedRequirements` | crates/entity-core/src/runtime.rs:348-380 | A decision that asks for host actions asks for exactly the requirements of the outcome it names. |
| `Lists.ListsMayDiffer` | crates/entity-core/src/runtime.rs:2022-2188 | A registered selector and a subject on which the two evaluators list different addresses. |
| `Lists.KnownIsAlike` | crates/entity-core/src/runtime.rs:2022-2188 | A condition that reads only what is known before loading answers and lists alike, wherever its quantifiers stand so that no early stop can be seen. |
| `Lists.SameRefusal` | crates/entity-core/src/runtime.rs:1137-1224 | With such selectors, what is refused before loading is the refusal after loading, its list included. |
| `Replay.ReplayRecords` | crates/entity-core/src/replay.rs:122-213 | The replay loop computes the specified replay. |
| `Replaying.RunReplays` | crates/entity-core/src/replay.rs:122-213 | The records of any run — kernel or service, supplied or derived identity, with or without fulfillments — replay to its last instance. |
| `Replaying.ReplayAcceptsExactly` | crates/entity-core/src/replay.rs:122-213 | Records of one definition replay to an instance if and only if one creation and operations after it left them, responses unjudged, and ended there. |
| `Replaying.IdentityIsNotRead` | crates/entity-core/src/runtime.rs:891-960 | Giving a creation its derived identity changes nothing it decided without one. |
| `Replay.ApplyEventChanges` | crates/entity-core/src/replay.rs:625-635 | The two loops install exactly the removals and then the writes. |
| `Replay.FoldRevision` | crates/entity-core/src/replay.rs:287-622 | One revision in place — events, numbering, candidate writers, fields, rules, then payloads — is the specified step of the fold. |
| `Replay.Writers` | crates/entity-core/src/replay.rs:391-505 | Among the template lists collected some one materialises the payloads if and only if some writer answers for the whole revision. |
| `Replay.Rehydrate` | crates/entity-core/src/replay.rs:232-623 | The walk, one revision at a time, computes the specified fold. |
| `FoldSteps.StepFolds` | crates/entity-core/src/replay.rs:287-622 | The events of one accepted operation fold into the instance it left, and that operation answers for them on settled arguments. |
| `FoldSteps.FoldedIsStep` | crates/entity-core/src/replay.rs:287-622 | A revision the fold accepts is what each operation that answers for it, on arguments its defaults leave alone, writes. |
| `Histories.FoldComplete` | crates/entity-core/src/replay.rs:232-623 | For every emitting `kernel/1` run the fold over its events rebuilds its last instance, and the history is settled. |
| `Histories.FoldSound` | crates/entity-core/src/replay.rs:232-805 | For every settled history the fold accepts, some run writes exactly those events and ends in that instance. |
| `Histories.FoldAcceptsExactly` | crates/entity-core/src/replay.rs:232-805 | For every history: a run writes it and ends in an instance if and only if the fold accepts it, rebuilds that instance, and it is settled. |
| `Unsettled.BlankIdentityFolds` | crates/entity-core/src/replay.rs:287-330 | A history with a blank identity that the fold accepts and no run writes. |
| `Unsettled.UndefaultedFieldsFold` | crates/entity-core/src/replay.rs:430-450 | A history whose creation lacks a default that the fold accepts and no run writes. |
| `Unsettled.UndefaultedArgumentsFold` | crates/entity-core/src/replay.rs:695-712 | A history whose operation event lacks a default of its arguments that the fold accepts and no run writes. |

## Left out

- Error messages and their paths: refusals keep their kind and the coordinates a property mentions; a list of validation findings is one `Validation`.
- Registration findings as lists: `Registration.Registered` is the predicate that no finding is made. Rules that only narrow it further and that no theorem rests on are not in it (relations, projections, the position of the default branch, rule names, alphabets).
- Binary64 rounding and shortest printing, and the duration, UUID, base64 and timestamp acceptors of map keys: opaque functions of their input.
- Alphabets of text fields: bulk without depth.
- Relations, `ref` targets, projections and the registry: questions about more than one definition.
- Definition snapshots, serialization and key-order canonicalization: objects are finite maps, so canonicalization is the identity.
- `Increments.IncrementProgress`: assumes that no list, map or text holds more than 2^64 - 1 entries, which no machine does.
- `Replaying.ReplayAcceptsExactly`: replay does not recompute a response, so neither side of it judges one.
- Runs under several definitions: a run is decided under one registered definition, and replay is characterized for records that all carry one.
- Legacy imports: replay refuses them, and nothing else of them is modelled.
- The command line, generators, the conformance harness and the event-log, remote and graph crates: wrappers around this kernel.
