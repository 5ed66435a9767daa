# Lab extraction and threshold rules of the intake form

This project models the computational core of a single-page clinical intake
form (`app_login_fixed.py`). Once a user has logged in, the page takes the
text of an uploaded lab report and runs `extract_labs_from_text`. That
function searches the text with six case-insensitive regular expressions,
one per lab (Glucose, Testosterone, Estradiol, TSH, Free T3, Free T4). It
converts the captured number with `float()` and returns a dictionary that
holds only the labs it found. Four threshold rules read that dictionary
with `dict.get` and a default value, and each one raises an advisory
message. A fixed list of five care-plan recommendations is kept as a
constant: the page shows only its heading, and the list itself goes into
the exported PDF care plan.

The model is functional:

- `Text` covers characters, ASCII case folding, digit runs and the value of a numeral.
- `Labs` holds the six labs, their keys and their patterns.
- `Pattern` covers what a pattern matches, as a declarative predicate. It also holds the left-to-right scanner that models `re.search`, and proofs that the two agree.
- `Extract` models the results dictionary.
- `ExtractFacts` proves what the dictionary holds: case does not matter, which occurrence supplies the value, and how the number is read.
- `ExtractExamples` works through short worked instances.
- `Advice` holds the rules and an independent characterisation of their output.
- `Intake` models what the page computes for an optional upload, and the notices it displays.

Each pattern has the form `Name(?:[^\d]|\s)*(G)`, where `G` is `\d+` for
Glucose, Testosterone and Estradiol and `\d+\.\d+` for the three thyroid
labs. Because `\s` lies inside `[^\d]`, the repetition accepts exactly the
runs of non-digits, so as far as which text matches is concerned the
pattern is `Name[^\d]*(G)` and the group always starts at the first digit
after the name.
`re.search` reports the leftmost match. At that start the greedy `\d+` makes
the group, and so the match, as long as possible. The model states this as
"leftmost, then longest" and proves the scanner returns exactly that match.

Three behaviours of the code are worth stating plainly, because a reader
might expect otherwise:

- The defaults of Glucose (0), Testosterone (100) and Estradiol (100) never fire their own rules, but the TSH default is 5, and 5 > 4.5. So a dictionary without TSH, including the empty one, always yields "High TSH: Possible hypothyroidism." (`Advice.NoLabsOnlyHighTsh`).
- The four rules are independent of each other, yet the page emits their messages in the fixed order of the four `if` statements. The model therefore returns a sequence in rule order and proves it is the only rule-ordered list of the firing rules.
- The number after a name is not simply "the nearest number". For Glucose, Testosterone and Estradiol only the digit run before any point is captured (`98.6` gives 98). For the thyroid labs an occurrence is skipped unless its first digit run is followed by a point and another digit ("TSH 3" and "TSH 4." are both skipped), and the first occurrence whose number has that form is used.

## Model

| member | source | states |
|---|---|---|
| Labs.PatternsCoverLabs | app_login_fixed.py:69-76 | the patterns dictionary has one entry per lab; its six keys are pairwise distinct and are the only names a lab is filed under |
| Text.NumberValue | app_login_fixed.py:81 | `float()` of a captured numeral is the integer its digits spell with the point left out, divided by ten to the number of digits after the point ("4.51" is 451/100); so it lies in the unit interval above its whole-number part, and a numeral without a point is its integer value |
| Pattern.GroupStartForced | app_login_fixed.py:70-75 | in any match at a given start, group 1 begins at the first digit after the name, because the repeated group after the name consumes exactly the non-digits |
| Pattern.MatchAtSpec | app_login_fixed.py:70-75 | the anchored attempt at index i fails exactly when no match of the pattern starts at i; otherwise it returns a match starting at i that no other match starting there outlasts |
| Pattern.SearchFromSkips | app_login_fixed.py:79 | every start index the search passes over before its result (or before the end of the text) admits no match |
| Pattern.Search | app_login_fixed.py:79 | `re.search` with `re.IGNORECASE` returns no match exactly when the pattern matches nowhere; otherwise it returns the leftmost match, the longest one at that start |
| Pattern.SearchMatchesSpec | app_login_fixed.py:79 | the declarative leftmost-longest description admits exactly one result, and it is what the search returns |
| Extract.Reading | app_login_fixed.py:79-81 | one pattern yields a value iff it matches somewhere, and the value is the non-negative `float()` of the group of the leftmost-longest match |
| Extract.ExtractOver | app_login_fixed.py:77-82 | after the loop has handled a prefix of the labs, the dictionary holds a key for a handled lab iff that lab's search produced a reading, with that reading as its value, and no other keys |
| Extract.ExtractLabs | app_login_fixed.py:68-82 | the result's keys are among the six lab names; a lab's key is present iff its pattern matches somewhere in the text; its value is the reading of the match `re.search` reports |
| Extract.ExtractLabsByLab | app_login_fixed.py:78-81 | each lab's entry depends only on that lab's own search: present iff its reading exists, and equal to it |
| Extract.NoNameNoLabs | app_login_fixed.py:68-82 | text in which no lab name occurs in any letter case, such as the empty text of a PDF that opens but has no text layer, gives the empty dictionary |
| ExtractFacts.CaseChangeKeepsMatches | app_login_fixed.py:79 | under `re.IGNORECASE`, two texts that differ only in letter case have exactly the same matching spans |
| ExtractFacts.SearchIgnoresCase | app_login_fixed.py:79 | `re.search` reports the same span in two texts that differ only in letter case |
| ExtractFacts.ReadingIgnoresCase | app_login_fixed.py:79-81 | a lab's value is the same in two texts that differ only in letter case |
| ExtractFacts.ExtractIgnoresCase | app_login_fixed.py:68-82 | two texts that differ only in letter case give the same dictionary |
| ExtractFacts.WholeNumberSearchIsFirstOccurrence | app_login_fixed.py:70-72 | for Glucose, Testosterone and Estradiol the search result is the attempt at the first occurrence of the name; no later occurrence is ever used |
| ExtractFacts.WholeNumberLabUsesFirstOccurrence | app_login_fixed.py:70-72 | a whole-number lab's value is the first digit run after its first occurrence, whatever non-digits (line breaks included) lie between; with no digit after it the lab is absent, even if the name recurs |
| ExtractFacts.WholeNumberAtStart | app_login_fixed.py:70-72 | a text that opens with a whole-number lab's name yields the digit run that first follows it |
| ExtractFacts.WholeNumberLabTruncates | app_login_fixed.py:70-72 | a whole-number lab whose first number after the name has a decimal point is stored as exactly the integer part of that number, the largest whole number not above it |
| ExtractFacts.DecimalLabUsesFirstPointedOccurrence | app_login_fixed.py:73-75 | for TSH, Free T3 and Free T4, call an occurrence pointed when the first digit run after the name is followed by a point and then a digit; occurrences that are not pointed are skipped, including one whose number ends in a bare point, and the value is the number after the first pointed occurrence |
| ExtractFacts.DecimalLabAbsentWithoutPointedNumber | app_login_fixed.py:73-75 | when no occurrence of a thyroid lab's name is pointed (its first digit run followed by a point and a digit), the lab has no key |
| ExtractExamples.GlucoseReading | app_login_fixed.py:70 | "Glucose 110" gives Glucose 110 |
| ExtractExamples.GlucoseInAnyCase | app_login_fixed.py:79 | "glucose 110" and "GLUCOSE 110" give Glucose 110 |
| ExtractExamples.GlucoseFractionDropped | app_login_fixed.py:70 | "Glucose 98.6" gives Glucose 98 |
| ExtractExamples.TshWithoutPointIsAbsent | app_login_fixed.py:73 | "TSH 3" gives no TSH key |
| ExtractExamples.TshSkipsUnpointedOccurrence | app_login_fixed.py:73 | "TSH 3, TSH 4.5" gives TSH 4.5 |
| Advice.Advisories | app_login_fixed.py:105-112 | the advisories are in rule order, each at most once, and an advisory appears iff its rule fires; a missing Glucose, Testosterone or Estradiol never fires, while a missing TSH always does |
| Advice.RuleOrderDeterminedByMembers | app_login_fixed.py:105-112 | two rule-ordered advisory lists with the same members are equal |
| Advice.AdvisoriesCharacterised | app_login_fixed.py:105-112 | a list is the page's advisory list iff it is in rule order and contains exactly the firing rules |
| Advice.NoLabsOnlyHighTsh | app_login_fixed.py:111-112 | with an empty dictionary the page still shows the TSH warning, and nothing else |
| Advice.LimitValuesTriggerNothing | app_login_fixed.py:105-112 | the comparisons are strict: values exactly at 100, 40, 20 and 4.5 raise nothing |
| Advice.OnlyRuleLabsMatter | app_login_fixed.py:105-112 | Free T3 and Free T4 never affect the advisories |
| Advice.SingleLabExamples | app_login_fixed.py:105-112 | {Glucose: 110} gives the glucose and TSH advisories in that order; {Testosterone: 30} gives the testosterone and TSH advisories |
| Intake.PlanFor | app_login_fixed.py:66-112 | the care plan always carries the five recommendations, whatever the labs; for an upload its labs are exactly the dictionary the extractor returns for the uploaded text, so only the six keys occur; with no upload the labs are empty and only the TSH warning shows; the advisories are the firing rules in rule order |
| Intake.NoNamesOnlyHighTsh | app_login_fixed.py:84-112 | an upload whose text names no lab gives empty labs and the lone TSH warning |
| Intake.NoUploadOnlyTshWarning | app_login_fixed.py:105-112 | before any upload the page shows exactly one advisory notice, the warning "High TSH: Possible hypothyroidism." |
| Intake.NoticesDetermineAdvisories | app_login_fixed.py:105-112 | the displayed (level, message) notices identify the advisories: two advisory lists with the same notices are equal |

## Left out

- Login, registration, the session flag and the patient form fields: these are UI and sqlite code outside the extractor and the rules.
- PDF text extraction with `fitz`: the upload is given to the model as the text already concatenated from its pages. A file `fitz.open` cannot read raises an exception that ends the page run before extraction and the rules; that path is not modelled.
- Saving the patient record (`str(labs)` into sqlite) and the FPDF export: these are I/O and formatting.
- The Streamlit calls that display the results: the model returns, for each advisory, its level (info or warning) and its message text (`Intake.Notices`), not the rendering.
- The insertion order of the results dictionary: a `map` has no order, while `st.write(labs)`, `str(labs)` and the PDF export list the labs in pattern order. All three uses are outside the model.
- Running time: `(?:[^\d]|\s)*` is an alternation whose two branches both accept whitespace, so a failing attempt after a long run of whitespace can make Python's backtracking engine take time exponential in that run. The model describes only which match is returned, not how long finding it takes.
- Text.NumberValue: `float()` is modelled as an exact real, without binary floating-point rounding and without overflow to infinity for very long digit runs.
- Text.IsDigit: `\d` is restricted to the ASCII digits. Python's `str` patterns also match other Unicode decimal digits, which `float()` accepts as well.
- Text.SameIgnoringCase: `re.IGNORECASE` is modelled as ASCII case folding. Python also folds a few non-ASCII letters onto ASCII ones ('ſ' onto 's', 'K' (Kelvin sign) onto 'k', and dotted or dotless 'i').
- Pattern.Search: only the six patterns' shape `Name[^\d]*(G)` is modelled, not a general regular-expression engine.
