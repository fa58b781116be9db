/**
 * A word on the playing field: its text, and its position in polar coordinates around the
 * orbit centre. Each tick the word turns by its angular speed and moves inwards.
 */
module Words {

  /** `Math.PI * 2` as Java prints it. */
  const TwoPi: real := 6.283185307179586

  /** The radius after moving `amount` inwards: never below 0. */
  function Decayed(radius: real, amount: real): (r: real)
    ensures r >= 0.0
    ensures r >= radius - amount
    ensures r == 0.0 || r == radius - amount
    ensures amount >= 0.0 && radius >= 0.0 ==> r <= radius
  {
    if radius - amount < 0.0 then 0.0 else radius - amount
  }

  /** The angle after one turn of `speed`: wrapped back once when it passes 2π. */
  function StepAngle(angle: real, speed: real): (r: real)
    ensures r == angle + speed || r == angle + speed - TwoPi
    ensures angle + speed <= TwoPi ==> r == angle + speed
  {
    if angle + speed > TwoPi then angle + speed - TwoPi else angle + speed
  }

  /** An angle in [0, 2π] stays there after a step of at most 2π. */
  lemma StepAngleInRange(angle: real, speed: real)
    requires 0.0 <= angle <= TwoPi && 0.0 <= speed <= TwoPi
    ensures 0.0 <= StepAngle(angle, speed) <= TwoPi
  {
  }

  /** The wrap is strict: an angle that lands exactly on 2π is not brought back to 0. */
  lemma StepAngleReachesTwoPi(speed: real)
    requires 0.0 < speed <= TwoPi
    ensures StepAngle(TwoPi - speed, speed) == TwoPi
  {
  }

  class Word {
    const text: string
    var angle: real
    var radius: real
    const angularSpeed: real

    constructor (text: string, radius: real, angle: real, angularSpeed: real)
      ensures this.text == text && this.radius == radius
      ensures this.angle == angle && this.angularSpeed == angularSpeed
    {
      this.text := text;
      this.radius := radius;
      this.angle := angle;
      this.angularSpeed := angularSpeed;
    }

    /** Turns the word by its angular speed; the radius is left as it is. */
    method UpdatePosition()
      modifies this
      ensures angle == StepAngle(old(angle), angularSpeed)
      ensures radius == old(radius)
    {
      angle := angle + angularSpeed;
      if angle > TwoPi {
        angle := angle - TwoPi;
      }
    }

    /** Moves the word `amount` closer to the centre, stopping at the centre. */
    method DecreaseRadius(amount: real)
      modifies this
      ensures radius == Decayed(old(radius), amount)
      ensures angle == old(angle)
    {
      radius := radius - amount;
      if radius < 0.0 {
        radius := 0.0;
      }
    }

    method GetRadius() returns (r: real)
      ensures r == radius
    {
      r := radius;
    }

    method GetText() returns (t: string)
      ensures t == text
    {
      t := text;
    }
  }
}
