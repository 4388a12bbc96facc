/** Build-time constants shared by the encoder and the evaluator
    (include/Config.h). */
module Config {

  /** Each instruction record is [opcode, A-mode, A-value, B-mode, B-value]. */
  const INSTR_FIELDS: nat := 5

  /** Number of instruction records in one warrior. */
  const INSTR_COUNT: nat := 15

  /** Genome length: one record of INSTR_FIELDS integers per instruction. */
  const GENOME_SIZE: nat := INSTR_FIELDS * INSTR_COUNT

  /** Offsets of the two operand values inside a record. */
  const A_VALUE_FIELD: nat := 2
  const B_VALUE_FIELD: nat := 4

  /** Rounds per match handed to the simulator. */
  const ROUNDS: nat := 50

  /** Weight of the variance penalty in the fitness (0.1f in the source). */
  const VARIANCE_LAMBDA: real := 1.0 / 10.0

  /** Core size of the simulator. */
  const CORESIZE: nat := 8000
}
