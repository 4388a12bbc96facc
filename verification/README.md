# Evolved Core War warriors: encoder and fitness reduction

This project models, in Dafny, the two pieces of pure logic at the centre of
an evolutionary Core War system. A genetic algorithm evolves integer genomes.
Each genome is turned into a Redcode warrior, the warrior fights a fixed
roster of opponents in the pMARS simulator, and the match results are reduced
to one fitness number.

- **Warrior serialiser** (`WarriorEncoder`). A genome has `GENOME_SIZE = 75`
  integers: `INSTR_COUNT = 15` records of `INSTR_FIELDS = 5` fields
  `[opcode, A-mode, A-value, B-mode, B-value]`. The serialiser writes the
  comment line `; Evolved warrior`, then `ORG 0`, then one line
  `MOV <A-value>, <B-value>` per record, in record order. Integers are written
  the way a C++ output stream writes an `int`: an optional `-` and then digits
  without leading zeros (`Decimal`). A parser for that text is the serialiser's
  partner. It proves that the text carries exactly the A- and B-values of
  every record and nothing else.
- **Genome initialiser** (`WarriorEncoder.InitGenome`). It overwrites every
  gene with a draw from the random generator, using bounds -100 and 100. The
  generator is a parameter, `rand(lo, hi, n)`, meaning the n-th draw. Its
  contract, that each draw lies within the bounds asked for, is a predicate
  the caller may assume.
- **Fitness reduction** (`CoreWarEvaluator`, `Statistics`). Each opponent's
  match result `{myScore, oppScore, wins, ties, losses}` becomes the score
  `(myScore - oppScore) + 5*wins - 5*losses`. The three scores are reduced to
  `mean - VARIANCE_LAMBDA * population variance`, with `VARIANCE_LAMBDA = 1/10`.
  The arithmetic is over `real`. The simulator is a parameter: it takes the
  warrior text and an opponent path and returns a match result.

Files: `config.dfy` (constants), `options.dfy` (`Option`), `decimal.dfy`,
`warrior_encoder.dfy`, `statistics.dfy`, `core_war_evaluator.dfy`.

## Design intent versus code

The system's design description promises much more than the code does.
It describes an encoder that decodes opcodes and addressing modes by wrapped
modulo. It also describes a region rule that replaces DAT, restricted
addressing modes, fork and arithmetic safety rules, and a Dwarf-seeded
initialiser and mutator. It describes concurrent matches in job-isolated
workspaces, and failed matches counted as all losses. The code does none of
this, and this model follows the code:

- `writeWarrior` always emits `MOV` and reads only fields 2 and 4 of each
  record.
- `initGenome` draws every gene uniformly from [-100, 100].
- `evaluateFitness` plays the opponents one after another.
- A match whose report cannot be read keeps its all-zero result. It scores 0;
  it is not counted as all losses.
- `getOpcode`, `getAddrMode`, `initGenomeFromDwarf` and `mutateGenomeFromDwarf`
  are declared in include/WarriorEncoder.h but have no body in the code, so
  they are not modelled.

## Model

| member | source | states |
|---|---|---|
| WarriorEncoder.WarriorLines | src/WarriorEncoder.cpp:16-23 | The program has 2 + INSTR_COUNT lines. Line 0 is `; Evolved warrior` and line 1 is `ORG 0`. Every later line starts with `MOV `, whatever the genome holds. |
| WarriorEncoder.WriteWarrior | src/WarriorEncoder.cpp:12-24 | The record loop, stepping by INSTR_FIELDS, has every read in bounds. It produces exactly the header followed by one line per record, for any integer values, negatives included. Parsing its output gives back every record's (A-value, B-value) pair, in order. |
| WarriorEncoder.InstructionLineRoundTrip | src/WarriorEncoder.cpp:19-22 | Instruction line k parses back to exactly (g[5k+2], g[5k+4]). |
| WarriorEncoder.InstrLineRoundTrip | src/WarriorEncoder.cpp:20-22 | `MOV a, b` parses back to (a, b) for all integers a and b. |
| WarriorEncoder.WarriorTextLines | src/WarriorEncoder.cpp:16-22 | Cutting the written text at its newlines gives back exactly the header and instruction lines. |
| WarriorEncoder.ParseWarriorRoundTrip | src/WarriorEncoder.cpp:16-23 | Parsing the whole text recovers the sequence of INSTR_COUNT operand pairs, one per record, in ascending record order. |
| WarriorEncoder.OnlyOperandFieldsMatter | src/WarriorEncoder.cpp:19-22 | Two genomes give the same text if and only if every record has the same A-value and the same B-value in both. |
| WarriorEncoder.NonOperandFieldIgnored | src/WarriorEncoder.cpp:20-22 | Overwriting an opcode, A-mode or B-mode field (position mod 5 not 2 or 4) leaves the text unchanged. |
| WarriorEncoder.InitGenome | src/WarriorEncoder.cpp:5-10 | All GENOME_SIZE genes are overwritten: gene i is the i-th draw with bounds (-100, 100), whatever the genome held before. If the generator honours its bounds, every gene ends in [-100, 100]. |
| Decimal.IntToDecimal | src/WarriorEncoder.cpp:20-22 | An integer is written as a non-empty string of digits with a leading `-` exactly when it is negative. |
| Decimal.NatToDecimal | src/WarriorEncoder.cpp:20-22 | A natural number is written as a non-empty string of digits with no leading zero. |
| Decimal.IntToDecimalRoundTrip | src/WarriorEncoder.cpp:20-22 | Reading a written integer back yields that integer. |
| Decimal.IntToDecimalInjective | src/WarriorEncoder.cpp:20-22 | Two integers are written identically if and only if they are equal. |
| CoreWarEvaluator.MatchResults | src/CoreWarEvaluator.cpp:57-70 | There is one result per roster opponent, in roster order. Each result comes from the same warrior text written from the genome. |
| CoreWarEvaluator.Scores | src/CoreWarEvaluator.cpp:69-79 | There is exactly one score per match result, and score i belongs to result i. |
| CoreWarEvaluator.RosterFixed | src/CoreWarEvaluator.cpp:60-64 | The roster is three distinct opponents. |
| CoreWarEvaluator.UnsetResultScoresZero | src/CoreWarEvaluator.cpp:72-75 | A result left at its all-zero initialisation (line 14) scores exactly 0. |
| CoreWarEvaluator.TiesIgnored | src/CoreWarEvaluator.cpp:72-75 | The number of ties never affects a score. |
| CoreWarEvaluator.ScoreAntisymmetric | src/CoreWarEvaluator.cpp:72-75 | Swapping the two sides' scores and swapping wins with losses negates the score. |
| CoreWarEvaluator.OneMoreWin | src/CoreWarEvaluator.cpp:72-75 | One more won round raises the score by exactly 5. |
| CoreWarEvaluator.PlayRoster | src/CoreWarEvaluator.cpp:66-79 | The first loop yields one score per opponent in roster order, each the score of that opponent's match. It also yields their sum. |
| CoreWarEvaluator.PopulationVariance | src/CoreWarEvaluator.cpp:83-87 | The second loop yields the population variance: squared deviations from the mean, divided by N and not N-1. |
| CoreWarEvaluator.EvaluateFitness | src/CoreWarEvaluator.cpp:56-90 | The result is the penalised fitness of the roster's match results, and it never exceeds their mean score. |
| CoreWarEvaluator.ResultOrderIrrelevant | src/CoreWarEvaluator.cpp:66-89 | Any reordering of the match results gives the same fitness. |
| CoreWarEvaluator.EqualScoresNoPenalty | src/CoreWarEvaluator.cpp:81-89 | If all opponents score the same, the fitness equals that common score. Otherwise the fitness is strictly below the mean. |
| CoreWarEvaluator.FitnessAtMostBestScore | src/CoreWarEvaluator.cpp:81-89 | The fitness never exceeds any upper bound on the per-opponent scores. |
| Statistics.Sum | src/CoreWarEvaluator.cpp:67-78 | A sum of non-negative scores is non-negative. |
| Statistics.Variance | src/CoreWarEvaluator.cpp:83-87 | The population variance is never negative. |
| Statistics.PenalisedFitness | src/CoreWarEvaluator.cpp:89 | The fitness never exceeds the mean, because VARIANCE_LAMBDA is positive and the variance is non-negative. |
| Statistics.SumPermutation | src/CoreWarEvaluator.cpp:67-78 | The accumulated sum does not depend on the order of the scores. |
| Statistics.MeanAtMost | src/CoreWarEvaluator.cpp:81 | The mean is at most any upper bound of the scores. |
| Statistics.MeanAtLeast | src/CoreWarEvaluator.cpp:81 | The mean is at least any lower bound of the scores. |
| Statistics.VarianceZeroIffAllEqual | src/CoreWarEvaluator.cpp:81-89 | The variance is 0 if and only if all scores are equal. In that case the mean and the fitness both equal the common score. |
| Statistics.FitnessEqualsMeanIffAllEqual | src/CoreWarEvaluator.cpp:89 | The fitness equals the mean if and only if all scores are equal. |
| Statistics.PermutationInvariant | src/CoreWarEvaluator.cpp:66-89 | Permuting the scores leaves the mean, the variance and the fitness unchanged. |

## Left out

- `runMatch` (src/CoreWarEvaluator.cpp:13-54) is left out. It builds a shell command, runs pMARS through `system()`, uses the shared files `../tmp/ga.red` and `../tmp/result.txt`, and scrapes the report with `sscanf`. In its place the simulator is a parameter that maps the warrior text and the opponent path to a `MatchResult`.
- File output is not modelled. The `std::ofstream` in `writeWarrior` and the warrior file written by `evaluateFitness` become a text value that is returned.
- Floating point is not modelled. The fitness is computed over `real`, with no claims about `float` rounding, NaN or infinity.
- CoreWarEvaluator.OpponentScore does not model 32-bit overflow of `myScore - oppScore`. That would need scores near the `int` limits, which a 50-round report never produces.
- CoreWarEvaluator.ResultsFitness and Statistics.Mean require at least one score. The source's roster is fixed at three, so the empty case (a division by zero) cannot arise.
- Genes are unbounded integers. `writeWarrior` does no arithmetic on them, so the width of `int` plays no role in it.
- `GARandomInt` is not modelled beyond its range contract, and the GAlib driver in src/main.cpp is not modelled at all: population, selection, crossover, mutation rate and the generation loop are all left out.
- `getOpcode`, `getAddrMode`, `initGenomeFromDwarf` and `mutateGenomeFromDwarf` (include/WarriorEncoder.h:8-13) are declared but have no body in the code, so there is nothing to model.
- pmars-0.9.4/src/sighandler.c is a no-op signal handler and is not modelled.
- Concurrency and job-id isolation are not modelled. The code runs its matches one after another and has no threads or counters.
