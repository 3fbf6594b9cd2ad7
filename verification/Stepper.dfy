/** The step-motor controller of stepper/stepper.c; its pin writes are recorded
    in a ghost trace. */
module Stepper {
  import opened Machine
  import opened StepperModel

  class Controller {
    const cwValue: uint8
    const ccwValue: uint8
    var currentPos: int32
    var targetPos: int32
    var delayMax: uint16
    var delayCnt: uint16
    var stepHigh: bool
    var currentDir: uint8
    var dirInitialized: bool
    ghost var trace: seq<Pin>

    ghost function Model(): Motor
      reads this
    {
      Motor(cwValue, ccwValue, currentPos, targetPos, delayMax, delayCnt, stepHigh,
            if dirInitialized then Some(currentDir) else None, trace)
    }

    ghost predicate Valid()
      reads this
    {
      Sound(Model())
    }

    constructor Init(cwValue: uint8, ccwValue: uint8)
      ensures Valid() && Model() == Start(cwValue, ccwValue)
      ensures Model() == Motor(cwValue, ccwValue, 0, 0, 0, 0, false, None, [])
    {
      this.cwValue := cwValue;
      this.ccwValue := ccwValue;
      currentPos, targetPos := 0, 0;
      delayMax, delayCnt := 0, 0;
      stepHigh, currentDir, dirInitialized := false, 0, false;
      trace := [];
    }

    method StepTo(v: uint8)
      modifies this`trace
      ensures trace == old(trace) + [StepPin(v)]
    {
      trace := trace + [StepPin(v)];
    }

    method DirTo(v: uint8)
      modifies this`trace
      ensures trace == old(trace) + [DirPin(v)]
    {
      trace := trace + [DirPin(v)];
    }

    method Tick()
      requires Valid()
      modifies this
      ensures Valid() && Model() == Ticked(old(Model()))
      ensures cwValue != ccwValue ==> currentPos == Shaft(trace, cwValue)
    {
      DoSound(Model(), Command.Tick);
      TickPins();
    }

    method TickPins()
      modifies this
      ensures Model() == Ticked(old(Model()))
    {
      if delayCnt < delayMax {
        delayCnt := delayCnt + 1;
        return;
      }
      delayCnt := 0;
      if targetPos == currentPos {
        if stepHigh {
          StepTo(0);
          stepHigh := false;
        }
        return;
      }
      var wantDir := if targetPos > currentPos then cwValue else ccwValue;
      if !dirInitialized || wantDir != currentDir {
        DirTo(wantDir);
        currentDir := wantDir;
        dirInitialized := true;
      }
      if !stepHigh {
        StepTo(1);
        stepHigh := true;
        if targetPos > currentPos {
          currentPos := currentPos + 1;
        } else {
          currentPos := currentPos - 1;
        }
      } else {
        StepTo(0);
        stepHigh := false;
      }
    }

    method MoveRelative(deltaSteps: int32)
      requires Valid() && Fits(Model(), MoveBy(deltaSteps))
      modifies this`targetPos
      ensures Valid() && Model() == Do(old(Model()), MoveBy(deltaSteps))
      ensures Model() == old(Model()).(target := old(targetPos) + deltaSteps)
    {
      targetPos := targetPos + deltaSteps;
    }

    method MoveTo(target: int32)
      requires Valid()
      modifies this`targetPos
      ensures Valid() && Model() == Do(old(Model()), Command.MoveTo(target))
      ensures Model() == old(Model()).(target := target)
    {
      targetPos := target;
    }

    method SetDelay(max: uint16)
      requires Valid()
      modifies this`delayMax
      ensures Valid() && Model() == Do(old(Model()), Command.SetDelay(max))
      ensures Model() == old(Model()).(delayMax := max)
    {
      delayMax := max;
    }

    // The accessors read the counter, the target and whether they differ.
    function Position(): (p: int32)
      reads this
      requires Valid()
      ensures cwValue != ccwValue ==> p == Shaft(trace, cwValue)
    {
      currentPos
    }

    function Target(): int32
      reads this
    {
      targetPos
    }

    function IsBusy(): bool
      reads this
    {
      currentPos != targetPos
    }
  }
}
