/** Option and Result values, and the Java exceptions the modelled code can raise. */
module Wrappers {

  /** A value or Java's null. */
  datatype Option<+T> = None | Some(value: T)

  /** A computed value, or the exception that aborts the computation. */
  datatype Result<+T, +E> = Ok(value: T) | Err(error: E)

  /** The exceptions thrown by the modelled code (their messages where the source chooses them). */
  datatype Exception =
    | Underflow                // a read past the end: BufferUnderflowException, or IndexOutOfBoundsException on a ByteBuf
    | NegativeArraySize        // new byte[n] with n < 0
    | IllegalLength            // ByteBuf.readBytes(n) with n < 0
    | NullPointer              // a null body dereferenced
    | BufferOverflow           // java.nio.BufferOverflowException
    | InvalidPath              // java.nio.file.InvalidPathException from Path.of
    | IllegalArgument          // java.lang.IllegalArgumentException
    | LengthOverflow           // an int length that overflows, leaving an array too small or negative
    | Runtime(message: string) // new RuntimeException(message)
}
